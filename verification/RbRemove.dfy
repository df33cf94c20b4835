/** RB_REMOVE: taking a node out and restoring the balance. */
module RbRemove {
  import opened RbShape
  import opened RbTree

  lemma SameTree(p: Path, t: Tree, u: Tree)
    requires Inorder(t) == Inorder(u) && Nodes(t) == Nodes(u)
    ensures SameContent(p, t, p, u)
  {
    SameInorder(p, t, u);
  }

  lemma SamePainted(p: Path, t: Tree, c: Color)
    ensures SameContent(p, t, p, Painted(t, c))
    ensures Just(Root(t)) <= PathNodes(p) + Nodes(t)
  {
    hide SameContent, Inorder;
    Repaint(t, c);
    SameTree(p, t, Painted(t, c));
    Ends(t, p);
  }

  lemma SameRotatedLeft(p: Path, t: Tree)
    requires t.Fork? && t.right.Fork?
    ensures SameContent(p, t, p, RotatedLeft(t))
  {
    RotatedLeftContent(t);
    SameTree(p, t, RotatedLeft(t));
  }

  lemma SameRotatedRight(p: Path, t: Tree)
    requires t.Fork? && t.left.Fork?
    ensures SameContent(p, t, p, RotatedRight(t))
  {
    RotatedRightContent(t);
    SameTree(p, t, RotatedRight(t));
  }

  /** The sibling is red: rotate it above the parent; the new sibling is black. */
  method RaiseRedSiblingLeft(h: Head, parent: Node, tmp_: Node, ghost p: Path, ghost t: Tree)
    returns (tmp: Node?, ghost p2: Path)
    requires Zip(h, p, t) && p.WentLeft? && p.right.Fork? && p.node == parent && p.right.node == tmp_
    modifies h`root, PathNodes(p), Nodes(t)
    ensures p2 == WentLeft(WentLeft(p.up, tmp_, Black, p.right.right), parent, Red, p.right.left)
    ensures Zip(h, p2, t) && tmp == Root(p.right.left) && SameContent(p2, t, p, t)
  {
    hide Rep, RepPath, Unique, UniquePath, Nodes, PathNodes, Inorder, Plug;
    ghost var s := p.right;
    ghost var side := WentRight(p.up, parent, p.color, t);
    Raise(h, p, t);
    Raise(h, side, s);
    SamePainted(side, s, Black);
    Paint(tmp_, Black, h, side, s);
    s := Painted(s, Black);
    Raise(h, side, s);
    ghost var f := Above(side, s);
    SamePainted(p.up, f, Red);
    Paint(parent, Red, h, p.up, f);
    f := Painted(f, Red);
    SameRotatedLeft(p.up, f);
    RotateLeft(h, parent, p.up, f);
    f := RotatedLeft(f);
    p2 := WentLeft(WentLeft(p.up, tmp_, Black, s.right), parent, Red, s.left);
    Raise(h, p2.up, Above(p2, t));
    Raise(h, p2, t);
    Around(h, p2, t);
    tmp := parent.right;
  }

  /** The sibling's outer child is black: rotate its red inner child above it. */
  method RaiseInnerChildLeft(h: Head, parent: Node, tmp_: Node, ghost p: Path, ghost t: Tree)
    returns (tmp: Node?, ghost p2: Path)
    requires Zip(h, p, t) && p.WentLeft? && p.right.Fork?
    requires p.right.left.Fork? && p.node == parent && p.right.node == tmp_
    modifies h`root, PathNodes(p), Nodes(t)
    ensures var s := p.right;
            p2 == WentLeft(p.up, parent, p.color, RotatedRight(Fork(Painted(s.left, Black), tmp_, Red, s.right)))
    ensures Zip(h, p2, t) && tmp == p2.right.node && SameContent(p2, t, p, t)
  {
    hide Rep, RepPath, Unique, UniquePath, Nodes, PathNodes, Inorder, Plug;
    ghost var s := p.right;
    ghost var side := WentRight(p.up, parent, p.color, t);
    Raise(h, p, t);
    Raise(h, side, s);
    Around(h, side, s);
    ghost var inner := WentLeft(side, tmp_, s.color, s.right);
    Raise(h, inner, s.left);
    Around(h, inner, s.left);
    var oleft := tmp_.left;
    SamePainted(inner, s.left, Black);
    Paint(oleft, Black, h, inner, s.left);
    Raise(h, inner, Painted(s.left, Black));
    s := Above(inner, Painted(s.left, Black));
    SamePainted(side, s, Red);
    Paint(tmp_, Red, h, side, s);
    s := Painted(s, Red);
    SameRotatedRight(side, s);
    RotateRight(h, tmp_, side, s);
    s := RotatedRight(s);
    p2 := WentLeft(p.up, parent, p.color, s);
    Raise(h, side, s);
    Raise(h, p2, t);
    Around(h, p2, t);
    tmp := parent.right;
  }

  /** The sibling's outer child is red: rotate the sibling above the parent and recolour. */
  method RaiseSiblingLeft(h: Head, parent: Node, tmp: Node, ghost p: Path, ghost t: Tree)
    returns (ghost u: Tree)
    requires Zip(h, p, t) && p.WentLeft? && p.right.Fork? && p.node == parent && p.right.node == tmp
    modifies h`root, PathNodes(p), Nodes(t)
    ensures var s := p.right;
            u == RotatedLeft(Fork(t, parent, Black, Fork(s.left, tmp, p.color, Painted(s.right, Black))))
    ensures Zip(h, p.up, u) && SameContent(p.up, u, p, t)
  {
    hide Rep, RepPath, Unique, UniquePath, Nodes, PathNodes, Inorder, Plug;
    ghost var s := p.right;
    ghost var side := WentRight(p.up, parent, p.color, t);
    Raise(h, p, t);
    Raise(h, side, s);
    Around(h, side, s);
    SamePainted(side, s, p.color);
    Paint(tmp, parent.color, h, side, s);
    s := Painted(s, p.color);
    Raise(h, side, s);
    SamePainted(p.up, Above(side, s), Black);
    Paint(parent, Black, h, p.up, Above(side, s));
    side := WentRight(p.up, parent, Black, t);
    Raise(h, side, s);
    ghost var outer := WentRight(side, tmp, s.color, s.left);
    Raise(h, outer, s.right);
    Around(h, outer, s.right);
    SamePainted(outer, s.right, Black);
    Paint(tmp.right, Black, h, outer, s.right);
    Raise(h, outer, Painted(s.right, Black));
    s := Above(outer, Painted(s.right, Black));
    Raise(h, side, s);
    SameRotatedLeft(p.up, Above(side, s));
    RotateLeft(h, parent, p.up, Above(side, s));
    u := RotatedLeft(Above(side, s));
  }

  /** The sibling is red: rotate it above the parent; the new sibling is black. */
  method RaiseRedSiblingRight(h: Head, parent: Node, tmp_: Node, ghost p: Path, ghost t: Tree)
    returns (tmp: Node?, ghost p2: Path)
    requires Zip(h, p, t) && p.WentRight? && p.left.Fork? && p.node == parent && p.left.node == tmp_
    modifies h`root, PathNodes(p), Nodes(t)
    ensures p2 == WentRight(WentRight(p.up, tmp_, Black, p.left.left), parent, Red, p.left.right)
    ensures Zip(h, p2, t) && tmp == Root(p.left.right) && SameContent(p2, t, p, t)
  {
    hide Rep, RepPath, Unique, UniquePath, Nodes, PathNodes, Inorder, Plug;
    ghost var s := p.left;
    ghost var side := WentLeft(p.up, parent, p.color, t);
    Raise(h, p, t);
    Raise(h, side, s);
    SamePainted(side, s, Black);
    Paint(tmp_, Black, h, side, s);
    s := Painted(s, Black);
    Raise(h, side, s);
    ghost var f := Above(side, s);
    SamePainted(p.up, f, Red);
    Paint(parent, Red, h, p.up, f);
    f := Painted(f, Red);
    SameRotatedRight(p.up, f);
    RotateRight(h, parent, p.up, f);
    f := RotatedRight(f);
    p2 := WentRight(WentRight(p.up, tmp_, Black, s.left), parent, Red, s.right);
    Raise(h, p2.up, Above(p2, t));
    Raise(h, p2, t);
    Around(h, p2, t);
    tmp := parent.left;
  }

  /** The sibling's outer child is black: rotate its red inner child above it. */
  method RaiseInnerChildRight(h: Head, parent: Node, tmp_: Node, ghost p: Path, ghost t: Tree)
    returns (tmp: Node?, ghost p2: Path)
    requires Zip(h, p, t) && p.WentRight? && p.left.Fork?
    requires p.left.right.Fork? && p.node == parent && p.left.node == tmp_
    modifies h`root, PathNodes(p), Nodes(t)
    ensures var s := p.left;
            p2 == WentRight(p.up, parent, p.color, RotatedLeft(Fork(s.left, tmp_, Red, Painted(s.right, Black))))
    ensures Zip(h, p2, t) && tmp == p2.left.node && SameContent(p2, t, p, t)
  {
    hide Rep, RepPath, Unique, UniquePath, Nodes, PathNodes, Inorder, Plug;
    ghost var s := p.left;
    ghost var side := WentLeft(p.up, parent, p.color, t);
    Raise(h, p, t);
    Raise(h, side, s);
    Around(h, side, s);
    ghost var inner := WentRight(side, tmp_, s.color, s.left);
    Raise(h, inner, s.right);
    Around(h, inner, s.right);
    var oright := tmp_.right;
    SamePainted(inner, s.right, Black);
    Paint(oright, Black, h, inner, s.right);
    Raise(h, inner, Painted(s.right, Black));
    s := Above(inner, Painted(s.right, Black));
    SamePainted(side, s, Red);
    Paint(tmp_, Red, h, side, s);
    s := Painted(s, Red);
    SameRotatedLeft(side, s);
    RotateLeft(h, tmp_, side, s);
    s := RotatedLeft(s);
    p2 := WentRight(p.up, parent, p.color, s);
    Raise(h, side, s);
    Raise(h, p2, t);
    Around(h, p2, t);
    tmp := parent.left;
  }

  /** The sibling's outer child is red: rotate the sibling above the parent and recolour. */
  method RaiseSiblingRight(h: Head, parent: Node, tmp: Node, ghost p: Path, ghost t: Tree)
    returns (ghost u: Tree)
    requires Zip(h, p, t) && p.WentRight? && p.left.Fork? && p.node == parent && p.left.node == tmp
    modifies h`root, PathNodes(p), Nodes(t)
    ensures var s := p.left;
            u == RotatedRight(Fork(Fork(Painted(s.left, Black), tmp, p.color, s.right), parent, Black, t))
    ensures Zip(h, p.up, u) && SameContent(p.up, u, p, t)
  {
    hide Rep, RepPath, Unique, UniquePath, Nodes, PathNodes, Inorder, Plug;
    ghost var s := p.left;
    ghost var side := WentLeft(p.up, parent, p.color, t);
    Raise(h, p, t);
    Raise(h, side, s);
    Around(h, side, s);
    SamePainted(side, s, p.color);
    Paint(tmp, parent.color, h, side, s);
    s := Painted(s, p.color);
    Raise(h, side, s);
    SamePainted(p.up, Above(side, s), Black);
    Paint(parent, Black, h, p.up, Above(side, s));
    side := WentLeft(p.up, parent, Black, t);
    Raise(h, side, s);
    ghost var outer := WentLeft(side, tmp, s.color, s.right);
    Raise(h, outer, s.left);
    Around(h, outer, s.left);
    SamePainted(outer, s.left, Black);
    Paint(tmp.left, Black, h, outer, s.left);
    Raise(h, outer, Painted(s.left, Black));
    s := Above(outer, Painted(s.left, Black));
    Raise(h, side, s);
    SameRotatedRight(p.up, Above(side, s));
    RotateRight(h, parent, p.up, Above(side, s));
    u := RotatedRight(Above(side, s));
  }

  // ---- The rules during a removal

  /** A focus one black node short; red here only where the loop ends. */
  ghost predicate Short(p: Path, t: Tree, k: nat) {
    && Balanced(t, k) && BalancedPath(p, k + 1) && NoRedRedPath(p)
    && NoRedRed(Painted(t, Black))
  }

  lemma ShortSibling(p: Path, t: Tree, k: nat)
    requires Short(p, t, k) && !p.Top?
    ensures Sibling(p).Fork?
  {
  }

  lemma RedSiblingRulesLeft(p: Path, t: Tree, k: nat)
    requires Short(p, t, k) && p.WentLeft? && ColorOf(p.right).Red? && ColorOf(t).Black?
    ensures Short(WentLeft(WentLeft(p.up, p.right.node, Black, p.right.right), p.node, Red, p.right.left), t, k)
    ensures ColorOf(p.right.left).Black?
  {
  }

  lemma PaintSiblingRulesLeft(p: Path, t: Tree, k: nat)
    requires Short(p, t, k) && p.WentLeft? && ColorOf(p.right).Black? && ColorOf(t).Black? && p.right.Fork?
    requires ColorOf(p.right.left).Black? && ColorOf(p.right.right).Black?
    ensures Short(p.up, Fork(t, p.node, p.color, Painted(p.right, Red)), k + Blackness(p.color))
  {
  }

  lemma InnerChildRulesLeft(p: Path, t: Tree, k: nat)
    requires Short(p, t, k) && p.WentLeft? && ColorOf(p.right).Black? && ColorOf(t).Black? && p.right.Fork?
    requires ColorOf(p.right.left).Red? && ColorOf(p.right.right).Black?
    ensures var s := p.right;
            var s2 := RotatedRight(Fork(Painted(s.left, Black), s.node, Red, s.right));
            Balanced(s2, k + 1) && s2.color.Black? && NoRedRed(s2) && ColorOf(s2.right).Red?
  {
    var s := p.right;
    assert Balanced(s, k + 1) && Balanced(s.left, k);
    assert NoRedRed(s) && NoRedRed(s.left);
  }

  lemma OuterChildRulesLeft(p: Path, t: Tree, k: nat)
    requires Short(p, t, k) && p.WentLeft? && ColorOf(p.right).Black? && p.right.Fork?
    ensures Balanced(p.right, k + 1) && NoRedRed(p.right)
  {
  }

  lemma RaiseSiblingRulesLeft(p: Path, t: Tree, k: nat, s: Tree)
    requires Short(p, t, k) && p.WentLeft? && ColorOf(t).Black?
    requires s.Fork? && Balanced(s, k + 1) && s.color.Black? && NoRedRed(s) && ColorOf(s.right).Red?
    ensures RedBlack(Plug(p.up, RotatedLeft(Fork(t, p.node, Black,
                                                 Fork(s.left, s.node, p.color, Painted(s.right, Black))))))
  {
    var u := RotatedLeft(Fork(t, p.node, Black, Fork(s.left, s.node, p.color, Painted(s.right, Black))));
    PaintedBlack(s.right, k);
    assert NoRedRedPath(p.up) && BalancedPath(p.up, k + 1 + Blackness(p.color));
    assert Balanced(u.left, k + 1);
    assert NoRedRed(u.left);
    assert Balanced(u, k + 1 + Blackness(p.color));
    RulesPlug(p.up, u, k + 1 + Blackness(p.color));
  }

  lemma RedSiblingRulesRight(p: Path, t: Tree, k: nat)
    requires Short(p, t, k) && p.WentRight? && ColorOf(p.left).Red? && ColorOf(t).Black?
    ensures Short(WentRight(WentRight(p.up, p.left.node, Black, p.left.left), p.node, Red, p.left.right), t, k)
    ensures ColorOf(p.left.right).Black?
  {
  }

  lemma PaintSiblingRulesRight(p: Path, t: Tree, k: nat)
    requires Short(p, t, k) && p.WentRight? && ColorOf(p.left).Black? && ColorOf(t).Black? && p.left.Fork?
    requires ColorOf(p.left.right).Black? && ColorOf(p.left.left).Black?
    ensures Short(p.up, Fork(Painted(p.left, Red), p.node, p.color, t), k + Blackness(p.color))
  {
  }

  lemma InnerChildRulesRight(p: Path, t: Tree, k: nat)
    requires Short(p, t, k) && p.WentRight? && ColorOf(p.left).Black? && ColorOf(t).Black? && p.left.Fork?
    requires ColorOf(p.left.right).Red? && ColorOf(p.left.left).Black?
    ensures var s := p.left;
            var s2 := RotatedLeft(Fork(s.left, s.node, Red, Painted(s.right, Black)));
            Balanced(s2, k + 1) && s2.color.Black? && NoRedRed(s2) && ColorOf(s2.left).Red?
  {
    var s := p.left;
    assert Balanced(s, k + 1) && Balanced(s.right, k);
    assert NoRedRed(s) && NoRedRed(s.right);
  }

  lemma OuterChildRulesRight(p: Path, t: Tree, k: nat)
    requires Short(p, t, k) && p.WentRight? && ColorOf(p.left).Black? && p.left.Fork?
    ensures Balanced(p.left, k + 1) && NoRedRed(p.left)
  {
  }

  lemma RaiseSiblingRulesRight(p: Path, t: Tree, k: nat, s: Tree)
    requires Short(p, t, k) && p.WentRight? && ColorOf(t).Black?
    requires s.Fork? && Balanced(s, k + 1) && s.color.Black? && NoRedRed(s) && ColorOf(s.left).Red?
    ensures RedBlack(Plug(p.up, RotatedRight(Fork(Fork(Painted(s.left, Black), s.node, p.color, s.right), p.node,
                                                  Black, t))))
  {
    var u := RotatedRight(Fork(Fork(Painted(s.left, Black), s.node, p.color, s.right), p.node, Black, t));
    PaintedBlack(s.left, k);
    assert NoRedRedPath(p.up) && BalancedPath(p.up, k + 1 + Blackness(p.color));
    assert Balanced(u.right, k + 1);
    assert NoRedRed(u.right);
    assert Balanced(u, k + 1 + Blackness(p.color));
    RulesPlug(p.up, u, k + 1 + Blackness(p.color));
  }

  lemma WholeShort(t: Tree) returns (k: nat)
    requires RedBlack(t)
    ensures Short(Top, t, k)
  {
    k :| Balanced(t, k);
  }

  /** One round of RB_REMOVE_COLOR for a left child. */
  method RemoveRoundLeft(h: Head, parent_: Node, elm_: Node?, ghost p_: Path, ghost t_: Tree, ghost k_: nat)
    returns (parent: Node?, elm: Node?, done: bool, ghost p: Path, ghost t: Tree, ghost k: nat)
    requires Zip(h, p_, t_) && Short(p_, t_, k_) && p_.WentLeft? && ColorOf(t_).Black?
    requires parent_ == p_.node && elm_ == Root(t_)
    modifies h`root, PathNodes(p_), Nodes(t_)
    ensures Zip(h, p, t) && Short(p, t, k) && SameContent(p, t, p_, t_)
    ensures elm == Root(t) && (!done ==> parent == Parent(p))
    ensures done ==> p.Top?
    ensures !done ==> Depth(p) + Blackness(ColorOf(t)) <= Depth(p_)
  {
    hide Rep, RepPath, Unique, UniquePath, Nodes, PathNodes, Inorder, Plug, Balanced, BalancedPath, NoRedRed;
    hide NoRedRedPath, Short;
    parent, elm, done := parent_, elm_, false;
    p, t, k := p_, t_, k_;
    ShortSibling(p, t, k);
    Around(h, p, t);
    RootColor(p.right, parent);
    OpenedPath(p);
    var tmp := parent.right;
    if tmp.color.Red? {
      RedSiblingRulesLeft(p, t, k);
      tmp, p := RaiseRedSiblingLeft(h, parent, tmp, p, t);
      ShortSibling(p, t, k);
      Around(h, p, t);
      OpenedPath(p);
    }
    Opened(p.right, parent);
    RootColor(p.right.left, tmp);
    RootColor(p.right.right, tmp);
    if (tmp.left == null || tmp.left.color.Black?) && (tmp.right == null || tmp.right.color.Black?) {
      PaintSiblingRulesLeft(p, t, k);
      ghost var side := WentRight(p.up, parent, p.color, t);
      Raise(h, p, t);
      Raise(h, side, p.right);
      SamePainted(side, p.right, Red);
      Paint(tmp, Red, h, side, p.right);
      Raise(h, side, Painted(p.right, Red));
      p, t, k := p.up, Fork(t, parent, p.color, Painted(p.right, Red)), k + Blackness(p.color);
      elm := parent;
      Around(h, p, t);
      parent := elm.parent;
    } else {
      ghost var s := p.right;
      if tmp.right == null || tmp.right.color.Black? {
        InnerChildRulesLeft(p, t, k);
        RaiseSiblingRulesLeft(p, t, k, RotatedRight(Fork(Painted(s.left, Black), tmp, Red, s.right)));
        tmp, p := RaiseInnerChildLeft(h, parent, tmp, p, t);
      } else {
        OuterChildRulesLeft(p, t, k);
        RaiseSiblingRulesLeft(p, t, k, s);
      }
      ghost var u := RaiseSiblingLeft(h, parent, tmp, p, t);
      RaiseAll(h, p.up, u);
      p, t := Top, Plug(p.up, u);
      TopFocus(t);
      k := WholeShort(t);
      Around(h, p, t);
      elm := h.root;
      done := true;
    }
  }

  /** One round of RB_REMOVE_COLOR for a right child. */
  method RemoveRoundRight(h: Head, parent_: Node, elm_: Node?, ghost p_: Path, ghost t_: Tree, ghost k_: nat)
    returns (parent: Node?, elm: Node?, done: bool, ghost p: Path, ghost t: Tree, ghost k: nat)
    requires Zip(h, p_, t_) && Short(p_, t_, k_) && p_.WentRight? && ColorOf(t_).Black?
    requires parent_ == p_.node && elm_ == Root(t_)
    modifies h`root, PathNodes(p_), Nodes(t_)
    ensures Zip(h, p, t) && Short(p, t, k) && SameContent(p, t, p_, t_)
    ensures elm == Root(t) && (!done ==> parent == Parent(p))
    ensures done ==> p.Top?
    ensures !done ==> Depth(p) + Blackness(ColorOf(t)) <= Depth(p_)
  {
    hide Rep, RepPath, Unique, UniquePath, Nodes, PathNodes, Inorder, Plug, Balanced, BalancedPath, NoRedRed;
    hide NoRedRedPath, Short;
    parent, elm, done := parent_, elm_, false;
    p, t, k := p_, t_, k_;
    ShortSibling(p, t, k);
    Around(h, p, t);
    RootColor(p.left, parent);
    OpenedPath(p);
    var tmp := parent.left;
    if tmp.color.Red? {
      RedSiblingRulesRight(p, t, k);
      tmp, p := RaiseRedSiblingRight(h, parent, tmp, p, t);
      ShortSibling(p, t, k);
      Around(h, p, t);
      OpenedPath(p);
    }
    Opened(p.left, parent);
    RootColor(p.left.right, tmp);
    RootColor(p.left.left, tmp);
    if (tmp.right == null || tmp.right.color.Black?) && (tmp.left == null || tmp.left.color.Black?) {
      PaintSiblingRulesRight(p, t, k);
      ghost var side := WentLeft(p.up, parent, p.color, t);
      Raise(h, p, t);
      Raise(h, side, p.left);
      SamePainted(side, p.left, Red);
      Paint(tmp, Red, h, side, p.left);
      Raise(h, side, Painted(p.left, Red));
      p, t, k := p.up, Fork(Painted(p.left, Red), parent, p.color, t), k + Blackness(p.color);
      elm := parent;
      Around(h, p, t);
      parent := elm.parent;
    } else {
      ghost var s := p.left;
      if tmp.left == null || tmp.left.color.Black? {
        InnerChildRulesRight(p, t, k);
        RaiseSiblingRulesRight(p, t, k, RotatedLeft(Fork(s.left, tmp, Red, Painted(s.right, Black))));
        tmp, p := RaiseInnerChildRight(h, parent, tmp, p, t);
      } else {
        OuterChildRulesRight(p, t, k);
        RaiseSiblingRulesRight(p, t, k, s);
      }
      ghost var u := RaiseSiblingRight(h, parent, tmp, p, t);
      RaiseAll(h, p.up, u);
      p, t := Top, Plug(p.up, u);
      TopFocus(t);
      k := WholeShort(t);
      Around(h, p, t);
      elm := h.root;
      done := true;
    }
  }

  lemma {:induction false} PlugRoot(p: Path, t: Tree)
    requires !p.Top?
    ensures Root(Plug(p, t)) != null && Root(Plug(p, t)) in PathNodes(p)
    decreases p
  {
    if !p.up.Top? {
      PlugRoot(p.up, Above(p, t));
    }
  }

  /** The focus is at the head exactly when there is nothing above it. */
  lemma AtRoot(h: Head, p: Path, t: Tree)
    requires Zip(h, p, t)
    ensures p.Top? <==> Root(t) == h.root
  {
    hide Rep, RepPath, Unique, UniquePath, Nodes, PathNodes, Plug;
    Ends(t, p);
    Around(h, p, t);
    if !p.Top? {
      PlugRoot(p, t);
      RaiseAll(h, p, t);
      Around(h, Top, Plug(p, t));
    }
  }

  lemma EndRules(p: Path, t: Tree, k: nat)
    requires Short(p, t, k) && (p.Top? || ColorOf(t).Red?)
    ensures RedBlack(Plug(p, Painted(t, Black)))
  {
    if ColorOf(t).Red? {
      PaintedBlack(t, k);
      RulesPlug(p, Painted(t, Black), k + 1);
    } else {
      assert Painted(t, Black) == t;
      RulesPlug(p, t, k);
    }
  }

  /** A short focus has a sibling, so the links tell the sides apart even for null. */
  lemma SideOfShort(h: Head, p: Path, t: Tree, k: nat)
    requires Zip(h, p, t) && Short(p, t, k) && !p.Top?
    ensures p.WentLeft? <==> p.node.left == Root(t)
  {
    hide Rep, Unique, Nodes, Balanced, NoRedRed, NoRedRedPath;
    ShortSibling(p, t, k);
    Around(h, p, t);
  }

  /** One round of RB_REMOVE_COLOR, on whichever side the focus is. */
  method RemoveRound(h: Head, parent_: Node, elm_: Node?, ghost p_: Path, ghost t_: Tree, ghost k_: nat)
    returns (parent: Node?, elm: Node?, done: bool, ghost p: Path, ghost t: Tree, ghost k: nat)
    requires Zip(h, p_, t_) && Short(p_, t_, k_) && !p_.Top? && ColorOf(t_).Black?
    requires parent_ == p_.node && elm_ == Root(t_)
    modifies h`root, PathNodes(p_), Nodes(t_)
    ensures Zip(h, p, t) && Short(p, t, k) && SameContent(p, t, p_, t_)
    ensures elm == Root(t) && (elm != null ==> elm.color == t.color)
    ensures if done then p.Top? else parent == Parent(p)
    ensures !done ==> Depth(p) + Blackness(ColorOf(t)) <= Depth(p_)
  {
    hide Rep, RepPath, Unique, UniquePath, Nodes, PathNodes, Inorder, Plug, Balanced, BalancedPath, NoRedRed;
    hide NoRedRedPath, Short, SameContent;
    SideOfShort(h, p_, t_, k_);
    if parent_.left == elm_ {
      parent, elm, done, p, t, k := RemoveRoundLeft(h, parent_, elm_, p_, t_, k_);
    } else {
      parent, elm, done, p, t, k := RemoveRoundRight(h, parent_, elm_, p_, t_, k_);
    }
    Around(h, p, t);
  }

  /** RB_REMOVE_COLOR. */
  method RemoveColor(h: Head, parent_: Node?, elm_: Node?, ghost p_: Path, ghost t_: Tree, ghost k_: nat)
    returns (ghost u: Tree)
    requires Zip(h, p_, t_) && Short(p_, t_, k_) && parent_ == Parent(p_) && elm_ == Root(t_)
    modifies h`root, PathNodes(p_), Nodes(t_)
    ensures Zip(h, Top, u) && RedBlack(u)
    ensures Nodes(u) == PathNodes(p_) + Nodes(t_) && Inorder(u) == Inorder(Plug(p_, t_))
  {
    hide Rep, RepPath, Unique, UniquePath, Nodes, PathNodes, Inorder, Plug, Balanced, BalancedPath, NoRedRed;
    hide NoRedRedPath, Short;
    var parent, elm, done := parent_, elm_, false;
    ghost var p, t, k := p_, t_, k_;
    Around(h, p, t);
    while (elm == null || elm.color.Black?) && elm != h.root
      invariant Zip(h, p, t) && Short(p, t, k) && SameContent(p, t, p_, t_)
      invariant elm == Root(t) && (elm != null ==> elm.color == t.color) && parent == Parent(p)
      decreases Depth(p) + Blackness(ColorOf(t))
    {
      AtRoot(h, p, t);
      Around(h, p, t);
      parent, elm, done, p, t, k := RemoveRound(h, parent, elm, p, t, k);
      if done {
        break;
      }
    }
    AtRoot(h, p, t);
    EndRules(p, t, k);
    SamePainted(p, t, Black);
    Paint(elm, Black, h, p, t);
    u := Plug(p, Painted(t, Black));
    RaiseAll(h, p, Painted(t, Black));
  }

  // ---- Taking a node out

  /** A node with at most one child: the child takes its place. */
  method Unlink(h: Head, elm: Node, child: Node?, parent: Node?, ghost p: Path, ghost t: Tree, ghost x: Tree)
    requires Zip(h, p, t) && t.Fork? && t.node == elm && child == Root(x) && parent == Parent(p)
    requires (t.left == Leaf && t.right == x) || (t.left == x && t.right == Leaf)
    modifies h`root, Just(child)`parent, Just(parent)`left, Just(parent)`right
    ensures Zip(h, p, x)
  {
    hide Rep, RepPath, Unique, UniquePath, Nodes, PathNodes;
    Opened(t, parent);
    Ends(x, p);
    assert allocated(PathNodes(p)) && allocated(Nodes(x));
    Adopt(child, parent, x, elm);
    Replace(h, parent, elm, child, p);
  }

  /** `elm` takes the place of `old_`, with its links and colour. */
  method TakePlace(h: Head, old_: Node, elm: Node, ghost p: Path, ghost t: Tree)
    requires Zip(h, p, t) && t.Fork? && t.node == old_ && t.left.Fork? && elm !in PathNodes(p) && elm !in Nodes(t)
    modifies h`root, PathNodes(p), Nodes(t), elm
    ensures Zip(h, p, Fork(t.left, elm, t.color, t.right))
  {
    hide Rep, RepPath, Unique, UniquePath, Nodes, PathNodes;
    Opened(t, Parent(p));
    Ends(t.left, p);
    Ends(t.right, p);
    assert allocated(PathNodes(p)) && allocated(Nodes(t.left)) && allocated(Nodes(t.right));
    elm.left, elm.right, elm.parent, elm.color := old_.left, old_.right, old_.parent, old_.color;
    Replace(h, old_.parent, old_, elm, p);
    Adopt(old_.left, elm, t.left, old_);
    Adopt(old_.right, elm, t.right, old_);
    Opened(Fork(t.left, elm, t.color, t.right), Parent(p));
  }

  lemma RemovedSorted(cmp: Cmp, a: seq<Node>, n: Node, b: seq<Node>)
    requires Ranks(cmp) && Sorted(cmp, a + [n] + b)
    ensures Sorted(cmp, a + b) && n !in a && n !in b
  {
    var s, u := a + [n] + b, a + b;
    assert s[|a|] == n;
    forall i, j | 0 <= i < j < |u|
      ensures cmp(u[i].key, u[j].key) < 0
    {
      assert u[i] == s[if i < |a| then i else i + 1] && u[j] == s[if j < |a| then j else j + 1];
    }
    forall i | 0 <= i < |u|
      ensures u[i] != n
    {
      assert u[i] == s[if i < |a| then i else i + 1];
    }
    assert forall i :: 0 <= i < |a| ==> a[i] == u[i];
    assert forall i :: 0 <= i < |b| ==> b[i] == u[|a| + i];
  }

  lemma RemovedContent(cmp: Cmp, a: seq<Node>, n: Node, b: seq<Node>)
    requires Ranks(cmp) && Sorted(cmp, a + [n] + b)
    ensures Sorted(cmp, a + b) && Elements(a + b) == Elements(a + [n] + b) - {n}
  {
    RemovedSorted(cmp, a, n, b);
    hide Sorted;
    ElementsOf(a, n, b);
  }

  // ---- The way down to the successor

  /** `q` goes left only, from `base` on. */
  ghost predicate OnSpine(q: Path, base: Path) {
    q == base || (q.WentLeft? && OnSpine(q.up, base))
  }

  function PlugSpine(q: Path, base: Path, t: Tree): Tree
    requires OnSpine(q, base)
    decreases q
  {
    if q == base then t else PlugSpine(q.up, base, Above(q, t))
  }

  /** The same way with another start. */
  function Rebased(q: Path, base: Path, to: Path): Path
    requires OnSpine(q, base)
    decreases q
  {
    if q == base then to else WentLeft(Rebased(q.up, base, to), q.node, q.color, q.right)
  }

  lemma SpineStep(q: Path, base: Path, t: Tree)
    requires t.Fork?
    ensures OnSpine(base, base)
    ensures OnSpine(q, base) ==> OnSpine(WentLeft(q, t.node, t.color, t.right), base)
  {
  }

  lemma {:induction false} SpineParent(q: Path, base: Path, to: Path)
    requires OnSpine(q, base) && UniquePath(q) && !base.Top? && !to.Top?
    ensures base.node in PathNodes(q) && (Parent(q) == base.node <==> q == base)
    ensures Parent(Rebased(q, base, to)) == if q == base then to.node else Parent(q)
    decreases q
  {
    if q != base {
      SpineParent(q.up, base, to);
    }
  }

  lemma {:induction false} RaiseSpine(h: Head, q: Path, base: Path, t: Tree)
    requires OnSpine(q, base)
    ensures Zip(h, q, t) <==> Zip(h, base, PlugSpine(q, base, t))
    ensures PathNodes(q) + Nodes(t) == PathNodes(base) + Nodes(PlugSpine(q, base, t))
    decreases q
  {
    if q != base {
      Raise(h, q, t);
      RaiseSpine(h, q.up, base, Above(q, t));
    }
  }

  lemma {:induction false} RebasedPlug(q: Path, base: Path, to: Path, t: Tree)
    requires OnSpine(q, base) && Depth(base) == Depth(to)
    ensures Depth(q) >= Depth(base) && Depth(Rebased(q, base, to)) == Depth(q)
    ensures OnSpine(Rebased(q, base, to), to)
    ensures PlugSpine(Rebased(q, base, to), to, t) == PlugSpine(q, base, t)
    decreases q
  {
    if q != base {
      RebasedPlug(q.up, base, to, Above(q, t));
    }
  }

  lemma {:induction false} RebasedRules(q: Path, base: Path, n: Node, k: int)
    requires OnSpine(q, base) && base.WentRight?
    ensures var r := Rebased(q, base, WentRight(base.up, n, base.color, base.left));
            && (BalancedPath(q, k) <==> BalancedPath(r, k)) && (NoRedRedPath(q) <==> NoRedRedPath(r))
            && PathColor(r) == PathColor(q) && Behind(r) == Behind(q)
            && Before(q) == Before(base.up) + Inorder(base.left) + [base.node]
            && Before(r) == Before(base.up) + Inorder(base.left) + [n]
    decreases q
  {
    if q != base {
      RebasedRules(q.up, base, n, k + Blackness(q.color));
    }
  }

  /** The tree below some node, and the way up from it. */
  lemma {:induction false} Focus(p: Path, t: Tree, n: Node) returns (q: Path, s: Tree)
    requires n in Nodes(t)
    ensures Plug(q, s) == Plug(p, t) && s.Fork? && s.node == n
    decreases t
  {
    if t.node == n {
      q, s := p, t;
    } else if n in Nodes(t.left) {
      q, s := Focus(WentLeft(p, t.node, t.color, t.right), t.left, n);
    } else {
      q, s := Focus(WentRight(p, t.node, t.color, t.left), t.right, n);
    }
  }

  /** The rules once a node with at most one child is gone. */
  lemma GoneRules(p: Path, t: Tree, x: Tree, k: nat)
    requires t.Fork? && ((t.left == Leaf && t.right == x) || (t.left == x && t.right == Leaf))
    requires Balanced(t, k) && BalancedPath(p, k) && NoRedRed(t) && NoRedRedPath(p)
    requires PathColor(p).Red? ==> ColorOf(t).Black?
    requires p.Top? ==> ColorOf(t).Black?
    ensures t.color.Black? ==> k == 1 && Short(p, x, 0)
    ensures t.color.Red? ==> RedBlack(Plug(p, x))
  {
    assert Balanced(Leaf, k - Blackness(t.color));
    if t.color.Red? {
      RulesPlug(p, x, k);
    }
  }

  lemma GoneContent(cmp: Cmp, p: Path, t: Tree, x: Tree)
    requires t.Fork? && ((t.left == Leaf && t.right == x) || (t.left == x && t.right == Leaf))
    requires Ranks(cmp) && Sorted(cmp, Inorder(Plug(p, t)))
    ensures Sorted(cmp, Inorder(Plug(p, x)))
    ensures Elements(Inorder(Plug(p, x))) == Elements(Inorder(Plug(p, t))) - {t.node}
  {
    hide Before, Behind, Plug, Sorted, Elements;
    InorderPlug(p, t);
    InorderPlug(p, x);
    assert Inorder(Leaf) == [];
    Regrouped(Before(p), t.node, Inorder(x), Behind(p));
    if t.left == Leaf {
      RemovedContent(cmp, Before(p), t.node, Inorder(x) + Behind(p));
    } else {
      RemovedContent(cmp, Before(p) + Inorder(x), t.node, Behind(p));
    }
  }

  lemma Regrouped(a: seq<Node>, n: Node, x: seq<Node>, b: seq<Node>)
    ensures a + ([] + [n] + x) + b == a + [n] + (x + b)
    ensures a + (x + [n] + []) + b == (a + x) + [n] + b
    ensures a + x + b == a + (x + b)
  {
  }

  /** RB_REMOVE up to `color:`, for a node with at most one child. */
  method SpliceOut(h: Head, elm: Node, child: Node?, ghost p: Path, ghost t: Tree, ghost x: Tree)
    returns (parent: Node?, color: Color)
    requires Zip(h, p, t) && t.Fork? && t.node == elm && child == Root(x)
    requires (t.left == Leaf && t.right == x) || (t.left == x && t.right == Leaf)
    modifies h`root, PathNodes(p), Nodes(t)
    ensures Zip(h, p, x) && parent == Parent(p) && color == t.color
    ensures elm.parent == old(elm.parent) && old(elm.parent) == Parent(p)
  {
    hide Rep, RepPath, Unique, UniquePath, Nodes, PathNodes;
    Around(h, p, t);
    Opened(t, Parent(p));
    Ends(x, p);
    parent := elm.parent;
    color := elm.color;
    Unlink(h, elm, child, parent, p, t, x);
  }

  /** RB_REMOVE up to `color:`, for a node with two children: its successor is spliced
      out and put in its place. */
  method SpliceSuccessor(h: Head, old_: Node, ghost p: Path, ghost t: Tree)
    returns (parent: Node?, child: Node?, color: Color, ghost q: Path, ghost m: Tree, ghost r: Path, ghost x: Tree)
    requires Zip(h, p, t) && t.Fork? && t.left.Fork? && t.right.Fork? && t.node == old_
    modifies h`root, PathNodes(p), Nodes(t)
    ensures var base := WentRight(p, old_, t.color, t.left);
            && OnSpine(q, base) && Plug(q, m) == Plug(p, t) && m.Fork? && m == Fork(Leaf, m.node, color, x)
            && r == Rebased(q, base, WentRight(p, m.node, t.color, t.left))
    ensures Zip(h, r, x) && parent == Parent(r) && child == Root(x)
  {
    hide Rep, RepPath, Unique, UniquePath, Nodes, PathNodes, Plug, PlugSpine, Rebased, OnSpine;
    ghost var base := WentRight(p, old_, t.color, t.left);
    q, m := base, t.right;
    Around(h, p, t);
    Raise(h, q, m);
    Opened(t, Parent(p));
    Around(h, q, m);
    SpineStep(base, base, m);
    var elm := old_.right;
    Opened(m, Parent(q));
    while elm.left != null
      invariant Zip(h, q, m) && m.Fork? && m.node == elm && OnSpine(q, base) && Plug(q, m) == Plug(p, t)
      invariant PathNodes(q) + Nodes(m) == PathNodes(p) + Nodes(t)
      invariant elm.left == Root(m.left) && elm.right == Root(m.right) && elm.parent == Parent(q)
      decreases m
    {
      elm := elm.left;
      SpineStep(q, base, m);
      Raise(h, WentLeft(q, m.node, m.color, m.right), m.left);
      q, m := WentLeft(q, m.node, m.color, m.right), m.left;
      Opened(m, Parent(q));
    }
    Opened(m, Parent(q));
    child := elm.right;
    x := m.right;
    RaiseSpine(h, q, base, m);
    ghost var to := WentRight(p, elm, t.color, t.left);
    SpineParent(q, base, to);
    assert elm !in PathNodes(q) + Nodes(x);
    parent, color := SpliceOut(h, elm, child, q, m, x);
    if elm.parent == old_ {
      parent := elm;
    }
    RaiseSpine(h, q, base, x);
    ghost var y := PlugSpine(q, base, x);
    Raise(h, base, y);
    TakePlace(h, old_, elm, p, Fork(t.left, old_, t.color, y));
    Raise(h, to, y);
    RebasedPlug(q, base, to, x);
    r := Rebased(q, base, to);
    RaiseSpine(h, r, to, x);
  }

  /** The keys and rules once the successor `m.node` has taken the place of `t.node`. */
  lemma SuccessorContent(cmp: Cmp, p: Path, t: Tree, q: Path, m: Tree, r: Path, x: Tree)
    requires t.Fork? && m.Fork? && m.left == Leaf && m.right == x
    requires var base := WentRight(p, t.node, t.color, t.left);
             OnSpine(q, base) && r == Rebased(q, base, WentRight(p, m.node, t.color, t.left))
    requires Ranks(cmp) && Sorted(cmp, Inorder(Plug(q, m)))
    ensures Sorted(cmp, Inorder(Plug(r, x)))
    ensures Elements(Inorder(Plug(r, x))) == Elements(Inorder(Plug(q, m))) - {t.node}
  {
    hide Before, Behind, Plug, Sorted, Elements, Rebased;
    InorderPlug(q, m);
    InorderPlug(r, x);
    RebasedRules(q, WentRight(p, t.node, t.color, t.left), m.node, 0);
    assert Inorder(Leaf) == [];
    var a := Before(p) + Inorder(t.left);
    Successor(a, t.node, m.node, Inorder(x), Behind(q));
    RemovedContent(cmp, a, t.node, [m.node] + Inorder(x) + Behind(q));
  }

  lemma Successor(a: seq<Node>, n: Node, m: Node, x: seq<Node>, b: seq<Node>)
    ensures (a + [n]) + ([] + [m] + x) + b == a + [n] + ([m] + x + b)
    ensures (a + [m]) + x + b == a + ([m] + x + b)
  {
  }

  lemma SuccessorRules(p: Path, t: Tree, q: Path, m: Tree, r: Path, x: Tree)
    requires t.Fork? && m.Fork? && m.left == Leaf && m.right == x
    requires var base := WentRight(p, t.node, t.color, t.left);
             OnSpine(q, base) && r == Rebased(q, base, WentRight(p, m.node, t.color, t.left))
    requires RedBlack(Plug(q, m))
    ensures m.color.Black? ==> Short(r, x, 0)
    ensures m.color.Red? ==> RedBlack(Plug(r, x))
  {
    hide Balanced, BalancedPath, NoRedRed, NoRedRedPath, Plug, Rebased, Short, RedBlack;
    var k := RulesUnplug(q, m);
    RebasedRules(q, WentRight(p, t.node, t.color, t.left), m.node, k);
    NotTop(q, WentRight(p, t.node, t.color, t.left), WentRight(p, m.node, t.color, t.left));
    GoneRules(r, m, x, k);
  }

  lemma NotTop(q: Path, base: Path, to: Path)
    requires OnSpine(q, base) && !base.Top? && !to.Top?
    ensures !Rebased(q, base, to).Top?
  {
  }

  /** RB_REMOVE: exactly `old_` leaves, and everything else is as ordered and as balanced
      as before. */
  method Remove(h: Head, old_: Node)
    requires h.Valid() && old_ in Nodes(h.tree)
    modifies h, Nodes(h.tree)
    ensures h.Valid()
    ensures Nodes(h.tree) == old(Nodes(h.tree)) - {old_}
  {
    hide Rep, RepPath, Unique, UniquePath, Nodes, PathNodes, Plug, Inorder, Balanced, BalancedPath, NoRedRed;
    hide NoRedRedPath, Rebased, OnSpine, Short, RedBlack, Sorted, Elements;
    ghost var p, t := Focus(Top, h.tree, old_);
    TopFocus(h.tree);
    RaiseAll(h, p, t);
    InorderNodes(h.tree);
    Opened(t, Parent(p));
    var child: Node?, parent: Node?, color: Color;
    ghost var r, x: Tree;
    if old_.left != null && old_.right != null {
      ghost var q, m;
      parent, child, color, q, m, r, x := SpliceSuccessor(h, old_, p, t);
      SuccessorContent(h.cmp, p, t, q, m, r, x);
      SuccessorRules(p, t, q, m, r, x);
    } else {
      if old_.left == null {
        child := old_.right;
        x := t.right;
      } else {
        child := old_.left;
        x := t.left;
      }
      r := p;
      ghost var k := RulesUnplug(p, t);
      GoneContent(h.cmp, p, t, x);
      GoneRules(p, t, x, k);
      parent, color := SpliceOut(h, old_, child, p, t, x);
    }
    InorderNodes(Plug(r, x));
    RaiseAll(h, r, x);
    if color.Black? {
      h.tree := RemoveColor(h, parent, child, r, x, 0);
    } else {
      h.tree := Plug(r, x);
    }
  }
}
