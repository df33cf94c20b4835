/** Searching and walking a red-black tree. */
module RbQuery {
  import opened RbShape
  import opened RbTree
  import opened RbRemove

  /** `r` is the first node of `s` whose key is not below `key`; null when there is none. */
  ghost predicate FirstFrom(cmp: Cmp, s: seq<Node>, key: Key, r: Node?) {
    if r == null then Below(cmp, s, key)
    else exists i :: 0 <= i < |s| && s[i] == r && cmp(key, r.key) <= 0 && Below(cmp, s[..i], key)
  }

  /** `r` comes right after `n` in `s`; null when `n` is the last. */
  ghost predicate Follows(s: seq<Node>, n: Node, r: Node?) {
    exists i :: 0 <= i < |s| && s[i] == n && (if i + 1 < |s| then r == s[i + 1] else r == null)
  }

  function First(s: seq<Node>): Node? {
    if s == [] then null else s[0]
  }

  lemma FirstFromSeam(cmp: Cmp, a: seq<Node>, b: seq<Node>, key: Key)
    requires Below(cmp, a, key) && (b != [] ==> cmp(key, b[0].key) <= 0)
    ensures FirstFrom(cmp, a + b, key, First(b))
  {
    if b != [] {
      assert (a + b)[|a|] == b[0] && (a + b)[..|a|] == a;
    } else {
      assert a + b == a;
    }
  }

  lemma FoundLeaf(cmp: Cmp, p: Path, key: Key)
    requires Ranks(cmp) && Between(cmp, p, key)
    ensures FirstFrom(cmp, Inorder(Plug(p, Leaf)), key, First(Behind(p)))
    ensures !HasKey(cmp, Elements(Inorder(Plug(p, Leaf))), key)
  {
    hide Plug, Before, Behind;
    InorderPlug(p, Leaf);
    assert Before(p) + [] + Behind(p) == Before(p) + Behind(p);
    FirstFromSeam(cmp, Before(p), Behind(p), key);
  }

  lemma FoundNode(cmp: Cmp, p: Path, t: Tree, key: Key)
    requires Ranks(cmp) && t.Fork? && Sorted(cmp, Inorder(Plug(p, t))) && cmp(key, t.node.key) == 0
    ensures FirstFrom(cmp, Inorder(Plug(p, t)), key, t.node)
    ensures t.node in Elements(Inorder(Plug(p, t)))
  {
    hide Plug, Before, Behind, Sorted;
    InorderPlug(p, t);
    KeysAround(cmp, p, t);
    var a, b := Before(p) + Inorder(t.left), [t.node] + Inorder(t.right) + Behind(p);
    Splice(Before(p), Inorder(t.left), t.node, Inorder(t.right), Behind(p));
    SameBelow(cmp, Before(p), t.node.key, key);
    SameBelow(cmp, Inorder(t.left), t.node.key, key);
    FirstFromSeam(cmp, a, b, key);
    assert (a + b)[|a|] == t.node;
  }

  lemma SameBelow(cmp: Cmp, s: seq<Node>, k: Key, key: Key)
    requires Ranks(cmp) && Below(cmp, s, k) && cmp(key, k) == 0
    ensures Below(cmp, s, key)
  {
    assert cmp(k, key) <= 0;
  }

  lemma Splice(a: seq<Node>, l: seq<Node>, n: Node, r: seq<Node>, b: seq<Node>)
    ensures a + (l + [n] + r) + b == (a + l) + ([n] + r + b)
  {
  }

  /** RB_NFIND: the first node not below the key of `elm`. */
  method NFind(h: Head, elm: Node) returns (res: Node?)
    requires h.Valid()
    ensures FirstFrom(h.cmp, Inorder(h.tree), elm.key, res)
  {
    hide Rep, RepPath, Unique, UniquePath, Nodes, PathNodes, Inorder, Plug, Balanced, NoRedRed, Before, Sorted;
    hide FirstFrom, Ranks;
    var tmp := h.root;
    res := null;
    ghost var p, t := Top, h.tree;
    TopFocus(h.tree);
    Around(h, p, t);
    while tmp != null
      invariant Zip(h, p, t) && Plug(p, t) == h.tree && tmp == Root(t)
      invariant Between(h.cmp, p, elm.key) && res == First(Behind(p))
      decreases t
    {
      var comp := h.cmp(elm.key, tmp.key);
      Opposite(h.cmp, elm.key, tmp.key);
      Around(h, p, t);
      Opened(t, Parent(p));
      if comp < 0 {
        res := tmp;
        tmp := tmp.left;
        GoLeft(h, p, t, elm.key);
        p, t := WentLeft(p, t.node, t.color, t.right), t.left;
      } else if comp > 0 {
        tmp := tmp.right;
        GoRight(h, p, t, elm.key);
        p, t := WentRight(p, t.node, t.color, t.left), t.right;
      } else {
        FoundNode(h.cmp, p, t, elm.key);
        return tmp;
      }
    }
    FoundLeaf(h.cmp, p, elm.key);
  }

  /** RB_FIND: the node with the key of `elm`, if there is one. */
  method Find(h: Head, elm: Node) returns (res: Node?)
    requires h.Valid()
    ensures res == null <==> !HasKey(h.cmp, Nodes(h.tree), elm.key)
    ensures res != null ==> res in Nodes(h.tree) && h.cmp(elm.key, res.key) == 0
  {
    hide Rep, RepPath, Unique, UniquePath, Nodes, PathNodes, Inorder, Plug, Balanced, NoRedRed, Before, Behind;
    hide Sorted, FirstFrom, Ranks;
    var tmp := h.root;
    ghost var p, t := Top, h.tree;
    TopFocus(h.tree);
    InorderNodes(h.tree);
    Around(h, p, t);
    while tmp != null
      invariant Zip(h, p, t) && Plug(p, t) == h.tree && tmp == Root(t)
      invariant Between(h.cmp, p, elm.key)
      decreases t
    {
      var comp := h.cmp(elm.key, tmp.key);
      Opposite(h.cmp, elm.key, tmp.key);
      Around(h, p, t);
      Opened(t, Parent(p));
      if comp < 0 {
        tmp := tmp.left;
        GoLeft(h, p, t, elm.key);
        p, t := WentLeft(p, t.node, t.color, t.right), t.left;
      } else if comp > 0 {
        tmp := tmp.right;
        GoRight(h, p, t, elm.key);
        p, t := WentRight(p, t.node, t.color, t.left), t.right;
      } else {
        FoundNode(h.cmp, p, t, elm.key);
        return tmp;
      }
    }
    FoundLeaf(h.cmp, p, elm.key);
    return null;
  }

  // ---- The next node in key order

  /** Going up a spine keeps the first node. */
  lemma {:induction false} SpineFirst(q: Path, base: Path, t: Tree)
    requires OnSpine(q, base) && t.Fork?
    ensures Inorder(PlugSpine(q, base, t)) != [] && Inorder(t) != []
    ensures First(Inorder(PlugSpine(q, base, t))) == First(Inorder(t))
    decreases q
  {
    if q != base {
      SpineFirst(q.up, base, Above(q, t));
    }
  }

  lemma {:induction false} SpineDepth(q: Path, base: Path)
    requires OnSpine(q, base)
    ensures Depth(q) >= Depth(base)
    decreases q
  {
    if q != base {
      SpineDepth(q.up, base);
    }
  }

  lemma SpineBelow(q: Path, base: Path, m: Tree)
    requires OnSpine(q, base) && m.Fork?
    ensures PlugSpine(base, base, m) == m
    ensures OnSpine(WentLeft(q, m.node, m.color, m.right), base)
    ensures PlugSpine(WentLeft(q, m.node, m.color, m.right), base, m.left) == PlugSpine(q, base, m)
  {
    SpineDepth(q, base);
  }

  /** The first node behind the focus, read off the way up. */
  lemma FirstBehind(p: Path, t: Tree)
    requires t.Fork?
    ensures p.WentLeft? ==> First(Behind(p)) == p.node
    ensures p.WentRight? ==> Behind(p) == Behind(p.up)
    ensures p.Top? ==> First(Behind(p)) == null
    ensures t.left == Leaf ==> First(Inorder(t)) == t.node
    ensures Inorder(Leaf) + Behind(p) == Behind(p)
  {
  }

  lemma FollowsAt(a: seq<Node>, n: Node, c: seq<Node>)
    ensures Follows(a + ([n] + c), n, First(c))
  {
    var s := a + ([n] + c);
    assert s[|a|] == n && (c != [] ==> s[|a| + 1] == c[0]);
  }

  lemma FollowsSeam(p: Path, t: Tree)
    requires t.Fork?
    ensures Follows(Inorder(Plug(p, t)), t.node, First(Inorder(t.right) + Behind(p)))
  {
    hide Plug, Before, Behind;
    InorderPlug(p, t);
    Splice(Before(p), Inorder(t.left), t.node, Inorder(t.right), Behind(p));
    assert [t.node] + Inorder(t.right) + Behind(p) == [t.node] + (Inorder(t.right) + Behind(p));
    FollowsAt(Before(p) + Inorder(t.left), t.node, Inorder(t.right) + Behind(p));
  }

  /** RB_NEXT. */
  method Next(h: Head, elm_: Node) returns (elm: Node?)
    requires h.Valid() && elm_ in Nodes(h.tree)
    ensures Follows(Inorder(h.tree), elm_, elm)
  {
    hide Rep, RepPath, Unique, UniquePath, Nodes, PathNodes, Inorder, Plug, Balanced, NoRedRed, Before, Sorted;
    hide Follows, OnSpine, PlugSpine, Behind;
    ghost var p, t := Focus(Top, h.tree, elm_);
    TopFocus(h.tree);
    RaiseAll(h, p, t);
    Opened(t, Parent(p));
    FollowsSeam(p, t);
    elm := elm_;
    if elm.right != null {
      elm := elm.right;
      ghost var base := WentRight(p, t.node, t.color, t.left);
      ghost var q, m := base, t.right;
      Raise(h, q, m);
      Opened(m, Parent(q));
      SpineStep(base, base, m);
      SpineBelow(base, base, m);
      while elm.left != null
        invariant Zip(h, q, m) && m.Fork? && m.node == elm && OnSpine(q, base) && PlugSpine(q, base, m) == t.right
        decreases m
      {
        Opened(m, Parent(q));
        elm := elm.left;
        SpineBelow(q, base, m);
        Raise(h, WentLeft(q, m.node, m.color, m.right), m.left);
        q, m := WentLeft(q, m.node, m.color, m.right), m.left;
      }
      Opened(m, Parent(q));
      SpineFirst(q, base, m);
      FirstBehind(q, m);
    } else {
      ghost var q, m := p, t;
      Around(h, q, m);
      FirstBehind(q, m);
      if elm.parent != null && elm == elm.parent.left {
        elm := elm.parent;
      } else {
        while elm.parent != null && elm == elm.parent.right
          invariant Zip(h, q, m) && m.Fork? && m.node == elm && elm.parent == Parent(q) && Behind(q) == Behind(p)
          decreases Depth(q)
        {
          Around(h, q, m);
          FirstBehind(q, m);
          Raise(h, q, m);
          elm := elm.parent;
          q, m := q.up, Above(q, m);
          Around(h, q, m);
        }
        Around(h, q, m);
        FirstBehind(q, m);
        elm := elm.parent;
      }
    }
  }
}
