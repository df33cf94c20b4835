/** Red-black trees as values: a tree, or a tree with one subtree in focus, and the
    balance rules of both. */
module RbShape {

  datatype Color = Red | Black

  /** What the comparison of a tree looks at. */
  type Key(!new)

  /** The comparison a tree is generated with. */
  type Cmp = (Key, Key) -> int

  /** It puts the keys in one order; keys it does not tell apart count as equal. */
  ghost predicate Ranks(cmp: Cmp) {
    && (forall a: Key, b: Key :: cmp(a, b) < 0 <==> cmp(b, a) > 0)
    && (forall a: Key, b: Key, c: Key :: cmp(a, b) < 0 && cmp(b, c) <= 0 ==> cmp(a, c) < 0)
    && (forall a: Key, b: Key, c: Key :: cmp(a, b) <= 0 && cmp(b, c) < 0 ==> cmp(a, c) < 0)
  }

  /** The fields of a tree entry (RB_ENTRY) and the key its comparison looks at. */
  class Node {
    const key: Key
    var left: Node?
    var right: Node?
    var parent: Node?
    var color: Color

    constructor (k: Key)
      ensures key == k
    {
      key := k;
      left, right, parent := null, null, null;
    }
  }

  datatype Tree = Leaf | Fork(left: Tree, node: Node, color: Color, right: Tree)

  /** The way from a subtree up to the root: at each node, its colour and the other
      child. */
  datatype Path =
    | Top
    | WentLeft(up: Path, node: Node, color: Color, right: Tree)
    | WentRight(up: Path, node: Node, color: Color, left: Tree)

  function Root(t: Tree): Node? {
    if t.Leaf? then null else t.node
  }

  function Parent(p: Path): Node? {
    if p.Top? then null else p.node
  }

  function Nodes(t: Tree): set<Node> {
    match t
    case Leaf => {}
    case Fork(l, n, _, r) => Nodes(l) + {n} + Nodes(r)
  }

  function PathNodes(p: Path): set<Node> {
    match p
    case Top => {}
    case WentLeft(up, n, _, r) => PathNodes(up) + {n} + Nodes(r)
    case WentRight(up, n, _, l) => PathNodes(up) + {n} + Nodes(l)
  }

  /** The whole tree around a focus. */
  function Plug(p: Path, t: Tree): Tree
    decreases p
  {
    match p
    case Top => t
    case WentLeft(up, n, c, r) => Plug(up, Fork(t, n, c, r))
    case WentRight(up, n, c, l) => Plug(up, Fork(l, n, c, t))
  }

  function Inorder(t: Tree): seq<Node> {
    match t
    case Leaf => []
    case Fork(l, n, _, r) => Inorder(l) + [n] + Inorder(r)
  }

  /** What comes before and after the focus in key order. */
  function Before(p: Path): seq<Node> {
    match p
    case Top => []
    case WentLeft(up, _, _, _) => Before(up)
    case WentRight(up, n, _, l) => Before(up) + Inorder(l) + [n]
  }

  function Behind(p: Path): seq<Node> {
    match p
    case Top => []
    case WentLeft(up, n, _, r) => [n] + Inorder(r) + Behind(up)
    case WentRight(up, _, _, _) => Behind(up)
  }

  lemma Regroup<T>(a: seq<T>, x: T, b: seq<T>, y: T, c: seq<T>)
    ensures (a + [x] + b) + [y] + c == a + [x] + (b + [y] + c)
  {
  }

  lemma {:induction false} InorderPlug(p: Path, t: Tree)
    ensures Inorder(Plug(p, t)) == Before(p) + Inorder(t) + Behind(p)
    decreases p
  {
    match p
    case Top =>
    case WentLeft(up, n, c, r) =>
      InorderPlug(up, Fork(t, n, c, r));
      Seam(Before(up), Inorder(t), [n] + Inorder(r), Behind(up));
      assert Inorder(t) + [n] + Inorder(r) == Inorder(t) + ([n] + Inorder(r));
    case WentRight(up, n, c, l) =>
      InorderPlug(up, Fork(l, n, c, t));
      Seam(Before(up), Inorder(l) + [n], Inorder(t), Behind(up));
      assert Before(up) + Inorder(l) + [n] == Before(up) + (Inorder(l) + [n]);
  }

  lemma Seam<T>(a: seq<T>, b: seq<T>, c: seq<T>, d: seq<T>)
    ensures a + (b + c) + d == a + b + (c + d) == (a + b) + c + d
  {
  }

  // ---- Each node is there once

  ghost predicate Unique(t: Tree) {
    match t
    case Leaf => true
    case Fork(l, n, _, r) => n !in Nodes(l) && n !in Nodes(r) && Nodes(l) !! Nodes(r) && Unique(l) && Unique(r)
  }

  ghost predicate UniquePath(p: Path) {
    match p
    case Top => true
    case WentLeft(up, n, _, r) =>
      n !in PathNodes(up) && n !in Nodes(r) && PathNodes(up) !! Nodes(r) && Unique(r) && UniquePath(up)
    case WentRight(up, n, _, l) =>
      n !in PathNodes(up) && n !in Nodes(l) && PathNodes(up) !! Nodes(l) && Unique(l) && UniquePath(up)
  }

  // ---- The red-black rules

  function Blackness(c: Color): nat {
    if c.Black? then 1 else 0
  }

  function ColorOf(t: Tree): Color {
    if t.Leaf? then Black else t.color
  }

  /** Every path down from the root passes `h` black nodes. */
  ghost predicate Balanced(t: Tree, h: int) {
    match t
    case Leaf => h == 0
    case Fork(l, _, c, r) => h >= Blackness(c) && Balanced(l, h - Blackness(c)) && Balanced(r, h - Blackness(c))
  }

  /** No red node has a red child. */
  ghost predicate NoRedRed(t: Tree) {
    match t
    case Leaf => true
    case Fork(l, _, c, r) => NoRedRed(l) && NoRedRed(r) && (c.Red? ==> ColorOf(l).Black? && ColorOf(r).Black?)
  }

  /** A focus of black height `h` fits in. */
  ghost predicate BalancedPath(p: Path, h: int) {
    match p
    case Top => true
    case WentLeft(up, _, c, r) => Balanced(r, h) && BalancedPath(up, h + Blackness(c))
    case WentRight(up, _, c, l) => Balanced(l, h) && BalancedPath(up, h + Blackness(c))
  }

  function PathColor(p: Path): Color {
    if p.Top? then Black else p.color
  }

  /** No red-red edge outside the focus, and the root is black if the focus is not it. */
  ghost predicate NoRedRedPath(p: Path) {
    match p
    case Top => true
    case WentLeft(up, _, c, r) =>
      NoRedRed(r) && NoRedRedPath(up) && (c.Red? ==> ColorOf(r).Black? && PathColor(up).Black? && !up.Top?)
    case WentRight(up, _, c, l) =>
      NoRedRed(l) && NoRedRedPath(up) && (c.Red? ==> ColorOf(l).Black? && PathColor(up).Black? && !up.Top?)
  }

  /** The rules of a whole tree. */
  ghost predicate RedBlack(t: Tree) {
    ColorOf(t).Black? && NoRedRed(t) && exists h :: Balanced(t, h)
  }

  lemma {:induction false} RulesPlug(p: Path, t: Tree, h: int)
    requires Balanced(t, h) && BalancedPath(p, h) && NoRedRed(t) && NoRedRedPath(p)
    requires PathColor(p).Red? ==> ColorOf(t).Black?
    requires p.Top? ==> ColorOf(t).Black?
    ensures RedBlack(Plug(p, t))
    decreases p
  {
    match p
    case Top => assert Balanced(t, h);
    case WentLeft(up, n, c, r) => RulesPlug(up, Fork(t, n, c, r), h + Blackness(c));
    case WentRight(up, n, c, l) => RulesPlug(up, Fork(l, n, c, t), h + Blackness(c));
  }

  // ---- Height

  function Height(t: Tree): nat {
    match t
    case Leaf => 0
    case Fork(l, _, _, r) => 1 + if Height(l) >= Height(r) then Height(l) else Height(r)
  }

  function Size(t: Tree): nat {
    match t
    case Leaf => 0
    case Fork(l, _, _, r) => Size(l) + 1 + Size(r)
  }

  function Exp2(n: nat): nat {
    if n == 0 then 1 else 2 * Exp2(n - 1)
  }

  lemma {:induction false} HeightAndSize(t: Tree, h: nat)
    requires Balanced(t, h) && NoRedRed(t)
    ensures Height(t) <= 2 * h + 1 - Blackness(ColorOf(t))
    ensures Size(t) + 1 >= Exp2(h)
  {
    match t
    case Leaf =>
    case Fork(l, _, c, r) =>
      HeightAndSize(l, h - Blackness(c));
      HeightAndSize(r, h - Blackness(c));
  }

  lemma {:induction false} Exp2Grows(a: nat, b: nat)
    requires a <= b
    ensures Exp2(a) <= Exp2(b)
    decreases b
  {
    if a < b {
      Exp2Grows(a, b - 1);
    }
  }

  /** The documented bound, height <= 2 lg (n + 1), with the logarithm moved over. */
  lemma HeightBound(t: Tree)
    requires RedBlack(t)
    ensures Exp2((Height(t) + 1) / 2) <= Size(t) + 1
  {
    var h :| Balanced(t, h);
    assert h >= 0;
    HeightAndSize(t, h);
    Exp2Grows((Height(t) + 1) / 2, h);
  }
}
