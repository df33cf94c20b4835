/** The red-black tree operations on linked nodes with parent pointers. */
module RbTree {
  import opened RbShape

  class Head {
    const cmp: Cmp
    var root: Node?
    ghost var tree: Tree

    /** The linked nodes are `tree`, in key order and within the red-black rules. */
    ghost predicate Valid()
      reads this, Nodes(tree)
    {
      Ranks(cmp) && Zip(this, Top, tree) && RedBlack(tree) && Sorted(cmp, Inorder(tree))
    }

    constructor (order: Cmp)
      requires Ranks(order)
      ensures Valid() && tree == Leaf && cmp == order
    {
      cmp, root, tree := order, null, Leaf;
      new;
      assert Balanced(Leaf, 0);
    }
  }

  ghost predicate Sorted(cmp: Cmp, s: seq<Node>) {
    forall i, j :: 0 <= i < j < |s| ==> cmp(s[i].key, s[j].key) < 0
  }

  ghost predicate Below(cmp: Cmp, s: seq<Node>, key: Key) {
    forall i :: 0 <= i < |s| ==> cmp(s[i].key, key) < 0
  }

  ghost predicate Beyond(cmp: Cmp, s: seq<Node>, key: Key) {
    forall i :: 0 <= i < |s| ==> cmp(key, s[i].key) < 0
  }

  /** The focus is where `key` belongs. */
  ghost predicate Between(cmp: Cmp, p: Path, key: Key) {
    Below(cmp, Before(p), key) && Beyond(cmp, Behind(p), key)
  }

  function Elements(s: seq<Node>): set<Node> {
    set n | n in s
  }

  ghost predicate HasKey(cmp: Cmp, ns: set<Node>, key: Key) {
    exists n :: n in ns && cmp(key, n.key) == 0
  }

  // ---- Which nodes and links make up a tree

  /** The links and colours below and including the root of `t`. */
  ghost predicate Rep(t: Tree, p: Node?)
    reads Nodes(t)
  {
    match t
    case Leaf => true
    case Fork(l, n, c, r) =>
      && n.left == Root(l) && n.right == Root(r) && n.parent == p && n.color == c
      && Rep(l, n) && Rep(r, n)
  }

  /** The links and colours above the focus. */
  ghost predicate RepPath(path: Path, h: Head, focus: Node?)
    reads h`root, PathNodes(path)
  {
    match path
    case Top => h.root == focus
    case WentLeft(up, n, c, r) =>
      && n.left == focus && n.right == Root(r) && n.parent == Parent(up) && n.color == c
      && Rep(r, n) && RepPath(up, h, n)
    case WentRight(up, n, c, l) =>
      && n.right == focus && n.left == Root(l) && n.parent == Parent(up) && n.color == c
      && Rep(l, n) && RepPath(up, h, n)
  }

  ghost predicate Apart(path: Path, t: Tree) {
    Unique(t) && UniquePath(path) && Nodes(t) !! PathNodes(path)
  }

  ghost predicate Zip(h: Head, path: Path, t: Tree)
    reads h`root, PathNodes(path), Nodes(t)
  {
    RepPath(path, h, Root(t)) && Rep(t, Parent(path)) && Apart(path, t)
  }

  function Just(n: Node?): set<Node> {
    if n == null then {} else {n}
  }

  /** What a fork says about its own node and its two subtrees. */
  lemma Opened(t: Tree, p: Node?)
    requires t.Fork?
    ensures Rep(t, p) <==>
            && t.node.left == Root(t.left) && t.node.right == Root(t.right) && t.node.parent == p
            && t.node.color == t.color && Rep(t.left, t.node) && Rep(t.right, t.node)
    ensures Unique(t) <==>
            && t.node !in Nodes(t.left) && t.node !in Nodes(t.right) && Nodes(t.left) !! Nodes(t.right)
            && Unique(t.left) && Unique(t.right)
    ensures Nodes(t) == Nodes(t.left) + {t.node} + Nodes(t.right)
  {
  }

  lemma Ends(t: Tree, path: Path)
    ensures Nodes(Leaf) == {}
    ensures Just(Root(t)) <= Nodes(t) && Just(Parent(path)) <= PathNodes(path)
  {
  }

  // ---- The pieces of a rotation

  /** `if (child) RB_PARENT(child) = p`. */
  method Adopt(child: Node?, p: Node?, ghost t: Tree, ghost was: Node?)
    requires child == Root(t) && Rep(t, was) && Unique(t)
    modifies Just(child)`parent
    ensures Rep(t, p)
  {
    if child != null {
      child.parent := p;
    }
  }

  /** Makes `to` the child that `from` was: of `parent`, or of the head. */
  method Replace(h: Head, parent: Node?, from: Node, to: Node?, ghost path: Path)
    requires parent == Parent(path) && RepPath(path, h, from) && UniquePath(path)
    requires from !in PathNodes(path)
    modifies h`root, Just(parent)`left, Just(parent)`right
    ensures RepPath(path, h, to)
  {
    if parent != null {
      if parent.left == from {
        parent.left := to;
      } else {
        parent.right := to;
      }
    } else {
      h.root := to;
    }
  }

  function RotatedLeft(t: Tree): Tree
    requires t.Fork? && t.right.Fork?
  {
    var r := t.right;
    Fork(Fork(t.left, t.node, t.color, r.left), r.node, r.color, r.right)
  }

  /** RB_ROTATE_LEFT. */
  method RotateLeft(h: Head, elm: Node, ghost path: Path, ghost t: Tree)
    requires t.Fork? && t.node == elm && t.right.Fork? && Zip(h, path, t)
    modifies h`root, PathNodes(path), Nodes(t)
    ensures Zip(h, path, RotatedLeft(t))
  {
    hide Rep, RepPath, Unique, UniquePath, Nodes, PathNodes;
    ghost var a, b, c := t.left, t.right.left, t.right.right;
    Opened(t, Parent(path));
    Opened(t.right, elm);
    Ends(b, path);
    assert allocated(PathNodes(path)) && allocated(Nodes(a)) && allocated(Nodes(b)) && allocated(Nodes(c));
    var tmp := elm.right;
    elm.right := tmp.left;
    Adopt(elm.right, elm, b, tmp);
    tmp.parent := elm.parent;
    Replace(h, elm.parent, elm, tmp, path);
    tmp.left := elm;
    elm.parent := tmp;
    Opened(RotatedLeft(t), Parent(path));
    Opened(RotatedLeft(t).left, tmp);
  }

  function RotatedRight(t: Tree): Tree
    requires t.Fork? && t.left.Fork?
  {
    var l := t.left;
    Fork(l.left, l.node, l.color, Fork(l.right, t.node, t.color, t.right))
  }

  /** RB_ROTATE_RIGHT. */
  method RotateRight(h: Head, elm: Node, ghost path: Path, ghost t: Tree)
    requires t.Fork? && t.node == elm && t.left.Fork? && Zip(h, path, t)
    modifies h`root, PathNodes(path), Nodes(t)
    ensures Zip(h, path, RotatedRight(t))
  {
    hide Rep, RepPath, Unique, UniquePath, Nodes, PathNodes;
    ghost var a, b, c := t.right, t.left.right, t.left.left;
    Opened(t, Parent(path));
    Opened(t.left, elm);
    Ends(b, path);
    assert allocated(PathNodes(path)) && allocated(Nodes(a)) && allocated(Nodes(b)) && allocated(Nodes(c));
    var tmp := elm.left;
    elm.left := tmp.right;
    Adopt(elm.left, elm, b, tmp);
    tmp.parent := elm.parent;
    Replace(h, elm.parent, elm, tmp, path);
    tmp.right := elm;
    elm.parent := tmp;
    Opened(RotatedRight(t), Parent(path));
    Opened(RotatedRight(t).right, tmp);
  }

  // ---- Moving the focus

  /** The subtree one level above the focus. */
  function Above(p: Path, t: Tree): Tree
    requires !p.Top?
  {
    match p
    case WentLeft(_, n, c, r) => Fork(t, n, c, r)
    case WentRight(_, n, c, l) => Fork(l, n, c, t)
  }

  /** The other child of the focus's parent. */
  function Sibling(p: Path): Tree
    requires !p.Top?
  {
    if p.WentLeft? then p.right else p.left
  }

  lemma OpenedPath(p: Path)
    requires !p.Top?
    ensures PathNodes(p) == PathNodes(p.up) + {p.node} + Nodes(Sibling(p))
    ensures Just(Root(Sibling(p))) <= Nodes(Sibling(p))
  {
  }

  lemma Raise(h: Head, p: Path, t: Tree)
    requires !p.Top?
    ensures Zip(h, p, t) <==> Zip(h, p.up, Above(p, t))
    ensures Plug(p, t) == Plug(p.up, Above(p, t))
    ensures PathNodes(p) + Nodes(t) == PathNodes(p.up) + Nodes(Above(p, t))
  {
  }

  function Painted(t: Tree, c: Color): Tree {
    if t.Leaf? then Leaf else Fork(t.left, t.node, c, t.right)
  }

  lemma Repaint(t: Tree, c: Color)
    ensures Nodes(Painted(t, c)) == Nodes(t) && Inorder(Painted(t, c)) == Inorder(t)
    ensures Root(Painted(t, c)) == Root(t)
  {
  }

  /** `RB_COLOR(n) = c`, where `n` may be null. */
  method Paint(n: Node?, c: Color, ghost h: Head, ghost p: Path, ghost t: Tree)
    requires Zip(h, p, t) && n == Root(t)
    modifies Just(n)`color
    ensures Zip(h, p, Painted(t, c))
  {
    hide Rep, RepPath, Unique, UniquePath, Nodes, PathNodes;
    Ends(t, p);
    assert allocated(PathNodes(p));
    if n != null {
      Opened(t, Parent(p));
      n.color := c;
      Opened(Painted(t, c), Parent(p));
    }
  }

  // ---- Insertion: one round of RB_INSERT_COLOR

  /** A red focus that may have a red parent; every other rule holds. */
  ghost predicate RedFocus(p: Path, t: Tree, k: nat) {
    && t.Fork? && t.color.Red? && NoRedRed(t) && NoRedRedPath(p)
    && Balanced(t, k) && BalancedPath(p, k)
  }

  ghost predicate SameContent(p: Path, t: Tree, p2: Path, t2: Tree) {
    && PathNodes(p) + Nodes(t) == PathNodes(p2) + Nodes(t2)
    && Inorder(Plug(p, t)) == Inorder(Plug(p2, t2))
  }

  function Recolored(g: Tree): Tree
    requires g.Fork?
  {
    Fork(Painted(g.left, Black), g.node, Red, Painted(g.right, Black))
  }

  lemma RecoloredRules(p: Path, t: Tree, k: nat)
    requires RedFocus(p, t, k) && !p.Top? && p.color.Red?
    requires var g := Above(p.up, Above(p, t)); ColorOf(g.left).Red? && ColorOf(g.right).Red?
    ensures RedFocus(p.up.up, Recolored(Above(p.up, Above(p, t))), k + 1)
  {
    var f := Above(p, t);
    assert BalancedPath(p.up, k) && NoRedRedPath(p.up) && p.up.color.Black?;
    assert Balanced(f, k);
    PaintedBlack(f, k);
    var u := Sibling(p.up);
    PaintedBlack(u, k);
    assert NoRedRed(Painted(f, Black)) && NoRedRed(Painted(u, Black));
  }

  lemma PaintedBlack(t: Tree, k: nat)
    requires ColorOf(t).Red? && Balanced(t, k)
    ensures Balanced(Painted(t, Black), k + 1)
  {
  }

  lemma RecoloredContent(g: Tree)
    requires g.Fork?
    ensures Nodes(g) == Nodes(Recolored(g)) && Inorder(g) == Inorder(Recolored(g))
  {
  }

  lemma {:induction false} SameInorder(p: Path, t: Tree, u: Tree)
    requires Inorder(t) == Inorder(u)
    ensures Inorder(Plug(p, t)) == Inorder(Plug(p, u))
  {
    InorderPlug(p, t);
    InorderPlug(p, u);
  }

  /** Parent and uncle are red: the red moves up to the grandparent. */
  method RecolorUp(h: Head, elm: Node, parent: Node, gparent: Node, tmp: Node, ghost p: Path, ghost t: Tree,
                   ghost k: nat)
    requires Zip(h, p, t) && RedFocus(p, t, k) && elm == t.node && Parent(p) == parent && p.color.Red?
    requires Parent(p.up) == gparent
    requires ColorOf(Sibling(p.up)).Red? && tmp == Root(Sibling(p.up))
    modifies parent`color, gparent`color, tmp`color
    ensures Zip(h, p.up.up, Recolored(Above(p.up, Above(p, t))))
  {
    hide Rep, RepPath, Unique, UniquePath, Nodes, PathNodes, NoRedRed, Balanced, NoRedRedPath, BalancedPath;
    ghost var f := Above(p, t);
    ghost var g := Above(p.up, f);
    Raise(h, p, t);
    Raise(h, p.up, f);
    Opened(g, Parent(p.up.up));
    Opened(g.left, gparent);
    Opened(g.right, gparent);
    assert allocated(PathNodes(p.up.up)) && allocated(Nodes(g.left)) && allocated(Nodes(g.right));
    tmp.color := Black;
    parent.color := Black;
    gparent.color := Red;
    Opened(Recolored(g), Parent(p.up.up));
    Opened(Recolored(g).left, gparent);
    Opened(Recolored(g).right, gparent);
  }

  /** The two rotations of a round, on values: the inner one only when the red child is
      on the inside. */
  function StraightenedLeft(f: Tree, inner: bool): Tree
    requires f.Fork? && (inner ==> f.right.Fork?)
  {
    if inner then RotatedLeft(f) else f
  }

  function StraightenedRight(f: Tree, inner: bool): Tree
    requires f.Fork? && (inner ==> f.left.Fork?)
  {
    if inner then RotatedRight(f) else f
  }

  lemma RotatedLeftContent(t: Tree)
    requires t.Fork? && t.right.Fork?
    ensures Inorder(RotatedLeft(t)) == Inorder(t) && Nodes(RotatedLeft(t)) == Nodes(t)
  {
    Regroup(Inorder(t.left), t.node, Inorder(t.right.left), t.right.node, Inorder(t.right.right));
  }

  lemma RotatedRightContent(t: Tree)
    requires t.Fork? && t.left.Fork?
    ensures Inorder(RotatedRight(t)) == Inorder(t) && Nodes(RotatedRight(t)) == Nodes(t)
  {
    Regroup(Inorder(t.left.left), t.left.node, Inorder(t.left.right), t.node, Inorder(t.right));
  }

  /** What can be read off the links around the focus. */
  lemma Around(h: Head, p: Path, t: Tree)
    requires Zip(h, p, t)
    ensures p.Top? ==> h.root == Root(t)
    ensures t.Fork? ==> t.node.parent == Parent(p) && t.node.color == t.color
    ensures !p.Top? ==> p.node.parent == Parent(p.up) && p.node.color == p.color
    ensures p.WentLeft? ==> p.node.left == Root(t) && p.node.right == Root(p.right) && Rep(p.right, p.node)
    ensures p.WentRight? ==> p.node.right == Root(t) && p.node.left == Root(p.left) && Rep(p.left, p.node)
    ensures t.Fork? && p.WentLeft? ==> p.node.right != t.node
    ensures t.Fork? && p.WentRight? ==> p.node.left != t.node
  {
  }

  lemma RootColor(t: Tree, p: Node?)
    requires Rep(t, p)
    ensures Root(t) != null ==> Root(t).color == ColorOf(t)
  {
  }

  /** Parent red, uncle black, parent a left child: rotations and one recolouring. */
  method RotateUpLeft(h: Head, elm_: Node, parent_: Node, gparent: Node, ghost p: Path, ghost t: Tree)
    returns (elm: Node, ghost t2: Tree)
    requires Zip(h, p, t) && t.Fork? && elm_ == t.node && Parent(p) == parent_
    requires p.up.WentLeft? && Parent(p.up) == gparent
    modifies h`root, PathNodes(p), Nodes(t)
    ensures t2 == RotatedRight(Fork(Painted(StraightenedLeft(Above(p, t), p.WentRight?), Black), gparent, Red,
                                    p.up.right))
    ensures Zip(h, p.up.up, t2) && elm == t2.left.node
  {
    hide Rep, RepPath, Unique, UniquePath, Nodes, PathNodes;
    elm := elm_;
    var parent := parent_;
    ghost var f := Above(p, t);
    Raise(h, p, t);
    Around(h, p, t);
    if parent.right == elm {
      RotatedLeftContent(f);
      RotateLeft(h, parent, p.up, f);
      var tmp := parent;
      parent := elm;
      elm := tmp;
      f := RotatedLeft(f);
    }
    Ends(f, p.up);
    Repaint(f, Black);
    Paint(parent, Black, h, p.up, f);
    f := Painted(f, Black);
    Raise(h, p.up, f);
    f := Above(p.up, f);
    Ends(f, p.up.up);
    Repaint(f, Red);
    Paint(gparent, Red, h, p.up.up, f);
    f := Painted(f, Red);
    RotateRight(h, gparent, p.up.up, f);
    t2 := RotatedRight(f);
  }

  /** Parent red, uncle black, parent a right child: rotations and one recolouring. */
  method RotateUpRight(h: Head, elm_: Node, parent_: Node, gparent: Node, ghost p: Path, ghost t: Tree)
    returns (elm: Node, ghost t2: Tree)
    requires Zip(h, p, t) && t.Fork? && elm_ == t.node && Parent(p) == parent_
    requires p.up.WentRight? && Parent(p.up) == gparent
    modifies h`root, PathNodes(p), Nodes(t)
    ensures t2 == RotatedLeft(Fork(p.up.left, gparent, Red,
                                   Painted(StraightenedRight(Above(p, t), p.WentLeft?), Black)))
    ensures Zip(h, p.up.up, t2) && elm == t2.right.node
  {
    hide Rep, RepPath, Unique, UniquePath, Nodes, PathNodes;
    elm := elm_;
    var parent := parent_;
    ghost var f := Above(p, t);
    Raise(h, p, t);
    Around(h, p, t);
    if parent.left == elm {
      RotatedRightContent(f);
      RotateRight(h, parent, p.up, f);
      var tmp := parent;
      parent := elm;
      elm := tmp;
      f := RotatedRight(f);
    }
    Ends(f, p.up);
    Repaint(f, Black);
    Paint(parent, Black, h, p.up, f);
    f := Painted(f, Black);
    Raise(h, p.up, f);
    f := Above(p.up, f);
    Ends(f, p.up.up);
    Repaint(f, Red);
    Paint(gparent, Red, h, p.up.up, f);
    f := Painted(f, Red);
    RotateLeft(h, gparent, p.up.up, f);
    t2 := RotatedLeft(f);
  }

  lemma RotateUpLeftRules(p: Path, t: Tree, k: nat)
    requires RedFocus(p, t, k) && !p.Top? && p.up.WentLeft? && p.color.Red? && ColorOf(p.up.right).Black?
    ensures var t2 := RotatedRight(Fork(Painted(StraightenedLeft(Above(p, t), p.WentRight?), Black), p.up.node, Red,
                                        p.up.right));
            && RedFocus(WentLeft(p.up.up, t2.node, Black, t2.right), t2.left, k)
            && SameContent(p.up.up, t2, p, t)
  {
    var f := Above(p, t);
    assert BalancedPath(p.up, k) && NoRedRedPath(p.up) && p.up.color.Black?;
    assert Balanced(f, k);
    if p.WentRight? {
      RotatedLeftContent(f);
    }
    var g := Painted(StraightenedLeft(f, p.WentRight?), Black);
    Repaint(StraightenedLeft(f, p.WentRight?), Black);
    var whole := Fork(g, p.up.node, Red, p.up.right);
    RotatedRightContent(whole);
    SameInorder(p.up, f, g);
    SameInorder(p.up.up, whole, RotatedRight(whole));
    SameInorder(p.up.up, whole, Fork(g, p.up.node, Black, p.up.right));
  }

  lemma RotateUpRightRules(p: Path, t: Tree, k: nat)
    requires RedFocus(p, t, k) && !p.Top? && p.up.WentRight? && p.color.Red? && ColorOf(p.up.left).Black?
    ensures var t2 := RotatedLeft(Fork(p.up.left, p.up.node, Red,
                                       Painted(StraightenedRight(Above(p, t), p.WentLeft?), Black)));
            && RedFocus(WentRight(p.up.up, t2.node, Black, t2.left), t2.right, k)
            && SameContent(p.up.up, t2, p, t)
  {
    var f := Above(p, t);
    assert BalancedPath(p.up, k) && NoRedRedPath(p.up) && p.up.color.Black?;
    assert Balanced(f, k);
    if p.WentLeft? {
      RotatedRightContent(f);
    }
    var g := Painted(StraightenedRight(f, p.WentLeft?), Black);
    Repaint(StraightenedRight(f, p.WentLeft?), Black);
    var whole := Fork(p.up.left, p.up.node, Red, g);
    RotatedLeftContent(whole);
    SameInorder(p.up, f, g);
    SameInorder(p.up.up, whole, RotatedLeft(whole));
    SameInorder(p.up.up, whole, Fork(p.up.left, p.up.node, Black, g));
  }

  function Depth(p: Path): nat {
    if p.Top? then 0 else 1 + Depth(p.up)
  }

  lemma {:induction false} RaiseAll(h: Head, p: Path, t: Tree)
    ensures Zip(h, p, t) <==> Zip(h, Top, Plug(p, t))
    ensures PathNodes(p) + Nodes(t) == Nodes(Plug(p, t))
    decreases p
  {
    if !p.Top? {
      Raise(h, p, t);
      RaiseAll(h, p.up, Above(p, t));
    }
  }

  lemma BlackenedRoot(p: Path, t: Tree, k: nat)
    requires RedFocus(p, t, k) && PathColor(p).Black?
    ensures RedBlack(Painted(Plug(p, t), Black))
  {
    if p.Top? {
      PaintedBlack(t, k);
    } else {
      RulesPlug(p, t, k);
    }
  }

  lemma RedParent(p: Path, t: Tree, k: nat)
    requires RedFocus(p, t, k) && PathColor(p).Red?
    ensures !p.Top? && !p.up.Top?
  {
  }

  lemma RecoloredSame(p: Path, t: Tree)
    requires !p.Top? && !p.up.Top?
    ensures SameContent(p.up.up, Recolored(Above(p.up, Above(p, t))), p, t)
  {
    var g := Above(p.up, Above(p, t));
    RecoloredContent(g);
    SameInorder(p.up.up, g, Recolored(g));
  }

  /** One round of RB_INSERT_COLOR: the focus moves up, and everything is kept. */
  method InsertRound(h: Head, elm_: Node, parent: Node, ghost p: Path, ghost t: Tree, ghost k: nat)
    returns (elm: Node, ghost p2: Path, ghost t2: Tree, ghost k2: nat)
    requires Zip(h, p, t) && RedFocus(p, t, k) && elm_ == t.node && parent == Parent(p) && p.color.Red?
    modifies h`root, PathNodes(p), Nodes(t)
    ensures Zip(h, p2, t2) && RedFocus(p2, t2, k2) && elm == t2.node
    ensures SameContent(p2, t2, p, t) && Depth(p2) < Depth(p)
  {
    hide Rep, RepPath, Unique, UniquePath, Nodes, PathNodes, Inorder, Plug, Balanced, BalancedPath, NoRedRed;
    hide NoRedRedPath;
    elm := elm_;
    RedParent(p, t, k);
    Around(h, p, t);
    Raise(h, p, t);
    Around(h, p.up, Above(p, t));
    OpenedPath(p);
    OpenedPath(p.up);
    var gparent := parent.parent;
    if parent == gparent.left {
      var tmp := gparent.right;
      RootColor(p.up.right, gparent);
      if tmp != null && tmp.color.Red? {
        RecoloredRules(p, t, k);
        RecoloredSame(p, t);
        RecolorUp(h, elm, parent, gparent, tmp, p, t, k);
        elm, p2, t2, k2 := gparent, p.up.up, Recolored(Above(p.up, Above(p, t))), k + 1;
      } else {
        RotateUpLeftRules(p, t, k);
        ghost var u;
        elm, u := RotateUpLeft(h, elm, parent, gparent, p, t);
        p2, t2, k2 := WentLeft(p.up.up, u.node, Black, u.right), u.left, k;
        Raise(h, p2, t2);
      }
    } else {
      var tmp := gparent.left;
      RootColor(p.up.left, gparent);
      if tmp != null && tmp.color.Red? {
        RecoloredRules(p, t, k);
        RecoloredSame(p, t);
        RecolorUp(h, elm, parent, gparent, tmp, p, t, k);
        elm, p2, t2, k2 := gparent, p.up.up, Recolored(Above(p.up, Above(p, t))), k + 1;
      } else {
        RotateUpRightRules(p, t, k);
        ghost var u;
        elm, u := RotateUpRight(h, elm, parent, gparent, p, t);
        p2, t2, k2 := WentRight(p.up.up, u.node, Black, u.left), u.right, k;
        Raise(h, p2, t2);
      }
    }
  }

  /** RB_INSERT_COLOR. */
  method InsertColor(h: Head, elm_: Node, ghost p_: Path, ghost t_: Tree, ghost k_: nat) returns (ghost u: Tree)
    requires Zip(h, p_, t_) && RedFocus(p_, t_, k_) && elm_ == t_.node
    modifies h`root, PathNodes(p_), Nodes(t_)
    ensures Zip(h, Top, u) && RedBlack(u)
    ensures Nodes(u) == PathNodes(p_) + Nodes(t_) && Inorder(u) == Inorder(Plug(p_, t_))
  {
    hide Rep, RepPath, Unique, UniquePath, Nodes, PathNodes, Inorder, Plug, Balanced, BalancedPath, NoRedRed;
    hide NoRedRedPath;
    ghost var p, t, k := p_, t_, k_;
    var elm := elm_;
    Around(h, p, t);
    while elm.parent != null && elm.parent.color.Red?
      invariant Zip(h, p, t) && RedFocus(p, t, k) && elm == t.node
      invariant SameContent(p, t, p_, t_)
      invariant elm.parent == Parent(p) && (elm.parent != null ==> elm.parent.color == p.color)
      decreases Depth(p)
    {
      elm, p, t, k := InsertRound(h, elm, elm.parent, p, t, k);
      Around(h, p, t);
    }
    RaiseAll(h, p, t);
    u := Plug(p, t);
    BlackenedRoot(p, t, k);
    Repaint(u, Black);
    Around(h, Top, u);
    Ends(u, Top);
    Paint(h.root, Black, h, Top, u);
    u := Painted(u, Black);
  }

  // ---- Searching

  lemma Opposite(cmp: Cmp, a: Key, b: Key)
    requires Ranks(cmp)
    ensures cmp(a, b) > 0 <==> cmp(b, a) < 0
  {
  }

  lemma SortedFive(cmp: Cmp, a: seq<Node>, b: seq<Node>, n: Node, c: seq<Node>, d: seq<Node>)
    requires Sorted(cmp, a + (b + [n] + c) + d)
    ensures Below(cmp, a, n.key) && Below(cmp, b, n.key) && Beyond(cmp, c, n.key) && Beyond(cmp, d, n.key)
  {
    var s := a + (b + [n] + c) + d;
    var k := |a| + |b|;
    assert s[k] == n;
    assert forall i :: 0 <= i < |a| ==> a[i] == s[i];
    assert forall i :: 0 <= i < |b| ==> b[i] == s[|a| + i];
    assert forall i :: 0 <= i < |c| ==> c[i] == s[k + 1 + i];
    assert forall i :: 0 <= i < |d| ==> d[i] == s[k + 1 + |c| + i];
  }

  /** The keys around the root of the focus. */
  lemma KeysAround(cmp: Cmp, p: Path, t: Tree)
    requires t.Fork? && Sorted(cmp, Inorder(Plug(p, t)))
    ensures Below(cmp, Before(p), t.node.key) && Below(cmp, Inorder(t.left), t.node.key)
    ensures Beyond(cmp, Inorder(t.right), t.node.key) && Beyond(cmp, Behind(p), t.node.key)
  {
    hide Before, Behind, Plug, Sorted, Below, Beyond;
    InorderPlug(p, t);
    SortedFive(cmp, Before(p), Inorder(t.left), t.node, Inorder(t.right), Behind(p));
  }

  lemma BetweenBelow(cmp: Cmp, p: Path, n: Node, c: Color, s: Tree, key: Key)
    requires Ranks(cmp) && Between(cmp, p, key)
    ensures cmp(key, n.key) < 0 && Beyond(cmp, Inorder(s), n.key) ==> Between(cmp, WentLeft(p, n, c, s), key)
    ensures cmp(n.key, key) < 0 && Below(cmp, Inorder(s), n.key) ==> Between(cmp, WentRight(p, n, c, s), key)
  {
    hide Inorder;
    JoinedBounds(cmp, [n], Inorder(s), Behind(p), key);
    JoinedBounds(cmp, Before(p), Inorder(s), [n], key);
  }

  lemma JoinedBounds(cmp: Cmp, a: seq<Node>, b: seq<Node>, c: seq<Node>, key: Key)
    ensures Below(cmp, a, key) && Below(cmp, b, key) && Below(cmp, c, key) ==> Below(cmp, a + b + c, key)
    ensures Beyond(cmp, a, key) && Beyond(cmp, b, key) && Beyond(cmp, c, key) ==> Beyond(cmp, a + b + c, key)
  {
  }

  lemma GoLeft(h: Head, p: Path, t: Tree, key: Key)
    requires Ranks(h.cmp) && Zip(h, p, t) && t.Fork? && h.cmp(key, t.node.key) < 0
    requires Between(h.cmp, p, key) && Sorted(h.cmp, Inorder(Plug(p, t)))
    ensures var p2 := WentLeft(p, t.node, t.color, t.right);
            Zip(h, p2, t.left) && Between(h.cmp, p2, key) && Plug(p2, t.left) == Plug(p, t)
  {
    hide Rep, RepPath, Unique, UniquePath, Nodes, PathNodes, Inorder;
    Raise(h, WentLeft(p, t.node, t.color, t.right), t.left);
    KeysAround(h.cmp, p, t);
    BetweenBelow(h.cmp, p, t.node, t.color, t.right, key);
  }

  lemma GoRight(h: Head, p: Path, t: Tree, key: Key)
    requires Ranks(h.cmp) && Zip(h, p, t) && t.Fork? && h.cmp(t.node.key, key) < 0
    requires Between(h.cmp, p, key) && Sorted(h.cmp, Inorder(Plug(p, t)))
    ensures var p2 := WentRight(p, t.node, t.color, t.left);
            Zip(h, p2, t.right) && Between(h.cmp, p2, key) && Plug(p2, t.right) == Plug(p, t)
  {
    hide Rep, RepPath, Unique, UniquePath, Nodes, PathNodes, Inorder;
    Raise(h, WentRight(p, t.node, t.color, t.left), t.right);
    KeysAround(h.cmp, p, t);
    BetweenBelow(h.cmp, p, t.node, t.color, t.left, key);
  }

  lemma {:induction false} InorderNodes(t: Tree)
    ensures Elements(Inorder(t)) == Nodes(t)
  {
    if t.Fork? {
      InorderNodes(t.left);
      InorderNodes(t.right);
      ElementsOf(Inorder(t.left), t.node, Inorder(t.right));
    }
  }

  lemma ElementsOf(a: seq<Node>, n: Node, b: seq<Node>)
    ensures Elements(a + [n] + b) == Elements(a) + {n} + Elements(b)
    ensures Elements(a + b) == Elements(a) + Elements(b)
  {
  }

  /** The red-black rules of a whole tree, seen from any place in it. */
  lemma {:induction false} RulesUnplug(p: Path, t: Tree) returns (k: nat)
    requires RedBlack(Plug(p, t))
    ensures Balanced(t, k) && BalancedPath(p, k) && NoRedRed(t) && NoRedRedPath(p)
    ensures PathColor(p).Red? ==> ColorOf(t).Black?
    ensures p.Top? ==> ColorOf(t).Black?
    decreases p
  {
    if p.Top? {
      k :| Balanced(t, k);
    } else {
      var j := RulesUnplug(p.up, Above(p, t));
      k := j - Blackness(p.color);
    }
  }

  // ---- Insertion

  lemma NewRed(p: Path, elm: Node)
    requires RedBlack(Plug(p, Leaf))
    ensures RedFocus(p, Fork(Leaf, elm, Red, Leaf), 0)
  {
    var k := RulesUnplug(p, Leaf);
    assert Balanced(Leaf, k);
  }

  /** RB_SET and the link from the parent: a red leaf in the place the search ended. */
  method Link(h: Head, elm: Node, parent: Node?, comp: int, ghost p: Path)
    requires Zip(h, p, Leaf) && elm !in PathNodes(p) && parent == Parent(p)
    requires parent != null ==> (comp < 0 <==> p.WentLeft?)
    modifies h`root, Just(parent), elm
    ensures Zip(h, p, Fork(Leaf, elm, Red, Leaf))
  {
    elm.parent := parent;
    elm.left, elm.right := null, null;
    elm.color := Red;
    if parent != null {
      if comp < 0 {
        parent.left := elm;
      } else {
        parent.right := elm;
      }
    } else {
      h.root := elm;
    }
  }

  lemma SortedWith(cmp: Cmp, a: seq<Node>, elm: Node, b: seq<Node>)
    requires Ranks(cmp) && Sorted(cmp, a + b) && Below(cmp, a, elm.key) && Beyond(cmp, b, elm.key)
    ensures Sorted(cmp, a + [elm] + b) && !HasKey(cmp, Elements(a + b), elm.key)
  {
    var s, u := a + [elm] + b, a + b;
    forall i, j | 0 <= i < j < |s|
      ensures cmp(s[i].key, s[j].key) < 0
    {
      if i < |a| < j {
        assert s[i] == u[i] && s[j] == u[j - 1];
      } else if j < |a| {
        assert s[i] == u[i] && s[j] == u[j];
      } else if |a| < i {
        assert s[i] == u[i - 1] && s[j] == u[j - 1];
      }
    }
  }

  lemma NewContent(cmp: Cmp, p: Path, elm: Node)
    requires Ranks(cmp) && Sorted(cmp, Inorder(Plug(p, Leaf))) && Between(cmp, p, elm.key)
    ensures var s := Inorder(Plug(p, Fork(Leaf, elm, Red, Leaf)));
            Sorted(cmp, s) && Elements(s) == Elements(Inorder(Plug(p, Leaf))) + {elm}
    ensures !HasKey(cmp, Elements(Inorder(Plug(p, Leaf))), elm.key)
  {
    hide Before, Behind, Plug, Sorted, Below, Beyond;
    InorderPlug(p, Leaf);
    InorderPlug(p, Fork(Leaf, elm, Red, Leaf));
    assert Inorder(Leaf) == [] && Inorder(Fork(Leaf, elm, Red, Leaf)) == [elm];
    assert Before(p) + [] + Behind(p) == Before(p) + Behind(p);
    SortedWith(cmp, Before(p), elm, Behind(p));
    ElementsOf(Before(p), elm, Behind(p));
  }

  lemma KeyFound(cmp: Cmp, ns: set<Node>, key: Key, n: Node)
    requires n in ns && cmp(key, n.key) == 0
    ensures HasKey(cmp, ns, key)
  {
  }

  lemma OneOfKey(cmp: Cmp, s: seq<Node>, a: Node, b: Node)
    requires Ranks(cmp) && Sorted(cmp, s) && b in Elements(s) && cmp(a.key, b.key) == 0
    ensures a in Elements(s) ==> a == b
  {
    Opposite(cmp, a.key, b.key);
  }

  lemma KeyAbsent(cmp: Cmp, ns: set<Node>, n: Node)
    requires Ranks(cmp) && !HasKey(cmp, ns, n.key)
    ensures n !in ns
  {
    assert cmp(n.key, n.key) == 0;
  }

  /** RB_INSERT; a node that is in the tree already is found and returned. */
  method Insert(h: Head, elm: Node) returns (found: Node?)
    requires h.Valid()
    modifies h, Nodes(h.tree), elm
    ensures h.Valid()
    ensures found == null <==> !HasKey(h.cmp, old(Nodes(h.tree)), elm.key)
    ensures found == null ==> Nodes(h.tree) == old(Nodes(h.tree)) + {elm}
    ensures found != null ==> found in old(Nodes(h.tree)) && h.cmp(elm.key, found.key) == 0
    ensures found != null ==> h.tree == old(h.tree) && unchanged(elm)
    ensures elm in old(Nodes(h.tree)) ==> found == elm
  {
    hide Rep, RepPath, Unique, UniquePath, Nodes, PathNodes, Inorder, Plug, Balanced, BalancedPath, NoRedRed;
    hide NoRedRedPath, Before, Behind;
    hide Ranks, Sorted, HasKey;
    var tmp := h.root;
    var parent: Node? := null;
    var comp := 0;
    ghost var p, t := Top, h.tree;
    TopFocus(h.tree);
    Around(h, p, t);
    while tmp != null
      invariant Zip(h, p, t) && Plug(p, t) == h.tree == old(h.tree) && unchanged(elm)
      invariant tmp == Root(t) && parent == Parent(p)
      invariant parent != null ==> (comp < 0 <==> p.WentLeft?)
      invariant Between(h.cmp, p, elm.key)
      decreases t
    {
      parent := tmp;
      comp := h.cmp(elm.key, parent.key);
      Opposite(h.cmp, elm.key, parent.key);
      Around(h, p, t);
      Opened(t, Parent(p));
      if comp < 0 {
        tmp := tmp.left;
        GoLeft(h, p, t, elm.key);
        p, t := WentLeft(p, t.node, t.color, t.right), t.left;
      } else if comp > 0 {
        tmp := tmp.right;
        GoRight(h, p, t, elm.key);
        p, t := WentRight(p, t.node, t.color, t.left), t.right;
      } else {
        RaiseAll(h, p, t);
        KeyFound(h.cmp, old(Nodes(h.tree)), elm.key, tmp);
        InorderNodes(h.tree);
        OneOfKey(h.cmp, Inorder(h.tree), elm, tmp);
        return tmp;
      }
    }
    RaiseAll(h, p, t);
    InorderNodes(h.tree);
    NewContent(h.cmp, p, elm);
    KeyAbsent(h.cmp, Nodes(h.tree), elm);
    NewRed(p, elm);
    Ends(Leaf, p);
    Opened(Fork(Leaf, elm, Red, Leaf), null);
    Link(h, elm, parent, comp, p);
    h.tree := InsertColor(h, elm, p, Fork(Leaf, elm, Red, Leaf), 0);
    InorderNodes(h.tree);
    return null;
  }

  lemma TopFocus(t: Tree)
    ensures Plug(Top, t) == t && Before(Top) == [] && Behind(Top) == [] && PathNodes(Top) == {}
  {
  }
}
