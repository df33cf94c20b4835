/** The pointer-linked binary heap: a complete tree of nodes, addressed by the bits of a
    position. */
module Heap {
  import opened Words

  class HeapNode {
    var left: HeapNode?
    var right: HeapNode?
    var parent: HeapNode?

    constructor ()
    {
      left, right, parent := null, null, null;
    }
  }

  type Order = (HeapNode, HeapNode) -> bool

  /** What `less_than` has to be on the nodes it is asked about. */
  ghost predicate StrictWeak(less: Order, s: set<HeapNode>) {
    && (forall x :: x in s ==> !less(x, x))
    && (forall x, y, z :: x in s && y in s && z in s && less(x, y) && less(y, z) ==> less(x, z))
    && (forall x, y, z :: x in s && y in s && z in s && less(x, z) ==> less(x, y) || less(y, z))
  }

  // ---- The nodes in level order

  function At(a: seq<HeapNode>, i: int): HeapNode? {
    if 0 <= i < |a| then a[i] else null
  }

  function Up(i: int): int {
    (i - 1) / 2
  }

  function Members(a: seq<HeapNode>): set<HeapNode> {
    set n | n in a
  }

  ghost predicate Distinct(a: seq<HeapNode>) {
    forall i, j :: 0 <= i < j < |a| ==> a[i] != a[j]
  }

  datatype Links = Links(left: HeapNode?, right: HeapNode?, parent: HeapNode?)

  /** The links of position `i` in a complete tree. */
  function LinksAt(a: seq<HeapNode>, i: int): Links {
    Links(At(a, 2 * i + 1), At(a, 2 * i + 2), if i == 0 then null else At(a, Up(i)))
  }

  ghost predicate Shows(n: HeapNode, l: Links)
    reads n
  {
    n.left == l.left && n.right == l.right && n.parent == l.parent
  }

  ghost predicate AllShow(a: seq<HeapNode>, s: seq<Links>)
    reads a
  {
    |s| == |a| && forall i :: 0 <= i < |a| ==> Shows(a[i], s[i])
  }

  ghost predicate Wired(a: seq<HeapNode>, i: int)
    requires 0 <= i < |a|
    reads a[i]
  {
    Shows(a[i], LinksAt(a, i))
  }

  ghost predicate AllWired(a: seq<HeapNode>)
    reads a
  {
    forall i :: 0 <= i < |a| ==> Wired(a, i)
  }

  class Heap {
    var min: HeapNode?
    var nelts: nat
    ghost var level: seq<HeapNode>

    /** The links are those of the complete tree whose rows, read from the left, are
        `level`. */
    ghost predicate Complete()
      reads this, level
    {
      min == At(level, 0) && nelts == |level| < U32 && Distinct(level) && AllWired(level)
    }

    /** heap_init. */
    constructor ()
      ensures Complete() && level == []
    {
      min, nelts, level := null, 0, [];
    }
  }

  /** A parent is never greater than a child. */
  ghost predicate OrderedAt(a: seq<HeapNode>, less: Order, j: int)
    requires 0 < j < |a|
  {
    !less(a[j], a[Up(j)])
  }

  ghost predicate Ordered(a: seq<HeapNode>, less: Order) {
    forall j :: 0 < j < |a| ==> OrderedAt(a, less, j)
  }

  lemma {:induction false} RootIsLeast(a: seq<HeapNode>, less: Order, i: int)
    requires Ordered(a, less) && StrictWeak(less, Members(a)) && 0 <= i < |a|
    ensures !less(a[i], a[0])
    decreases i
  {
    if i > 0 {
      RootIsLeast(a, less, Up(i));
      assert OrderedAt(a, less, i);
      assert a[i] in Members(a) && a[Up(i)] in Members(a) && a[0] in Members(a);
    }
  }

  // ---- Swapping a parent with a child

  function Swapped(a: seq<HeapNode>, i: int, c: int): seq<HeapNode>
    requires 0 <= i < |a| && 0 <= c < |a|
  {
    a[i := a[c]][c := a[i]]
  }

  /** `*parent` and `*child` change places, and each then points at the other. */
  function Exchanged(s: seq<Links>, a: seq<HeapNode>, i: int, c: int): seq<Links>
    requires 0 <= i < |s| == |a| && 0 <= c < |s|
  {
    var up := if s[i].left == a[c] then Links(a[i], s[i].right, s[i].parent) else Links(s[i].left, a[i], s[i].parent);
    s[i := Links(s[c].left, s[c].right, a[c])][c := up]
  }

  method Exchange(parent: HeapNode, child: HeapNode, ghost a: seq<HeapNode>, ghost s: seq<Links>, ghost i: int,
                  ghost c: int)
    returns (sibling: HeapNode?)
    requires Distinct(a) && AllShow(a, s) && 0 <= i < |a| && 0 <= c < |a| && i != c && a[i] == parent && a[c] == child
    requires (s[i].left == child || s[i].right == child) && s[i].left != parent
    modifies parent, child
    ensures AllShow(a, Exchanged(s, a, i, c))
    ensures sibling == if s[i].left == child then s[i].right else s[i].left
  {
    assert Shows(a[i], s[i]) && Shows(a[c], s[c]);
    var tl, tr, tp := parent.left, parent.right, parent.parent;
    parent.left, parent.right, parent.parent := child.left, child.right, child.parent;
    child.left, child.right, child.parent := tl, tr, tp;
    parent.parent := child;
    if child.left == child {
      child.left := parent;
      sibling := child.right;
    } else {
      child.right := parent;
      sibling := child.left;
    }
  }

  function Adopted(s: seq<Links>, k: int, p: HeapNode): seq<Links> {
    if 0 <= k < |s| then s[k := s[k].(parent := p)] else s
  }

  /** `if (n != NULL) n->parent = p`, for the node `n` at position `k`, if there is one. */
  method Adopt(n: HeapNode?, p: HeapNode, ghost a: seq<HeapNode>, ghost s: seq<Links>, ghost k: int)
    requires Distinct(a) && AllShow(a, s) && n == At(a, k)
    modifies Just(n)`parent
    ensures AllShow(a, Adopted(s, k, p))
  {
    if n != null {
      assert Shows(a[k], s[k]);
      n.parent := p;
    }
  }

  function Redirected(s: seq<Links>, k: int, from: HeapNode, to: HeapNode): seq<Links> {
    if !(0 <= k < |s|) then s
    else if s[k].left == from then s[k := s[k].(left := to)]
    else s[k := s[k].(right := to)]
  }

  /** The link that led down to `from` leads to `to`. */
  method Redirect(h: Heap, parent: HeapNode?, from: HeapNode, to: HeapNode, ghost a: seq<HeapNode>,
                  ghost s: seq<Links>, ghost k: int)
    requires Distinct(a) && AllShow(a, s) && parent == At(a, k)
    modifies h`min, Just(parent)`left, Just(parent)`right
    ensures AllShow(a, Redirected(s, k, from, to)) && h.min == if parent == null then to else old(h.min)
  {
    assert 0 <= k < |a| ==> Shows(a[k], s[k]);
    if parent == null {
      h.min := to;
    } else if parent.left == from {
      parent.left := to;
    } else {
      parent.right := to;
    }
  }

  function Just(n: HeapNode?): set<HeapNode> {
    if n == null then {} else {n}
  }

  function LevelLinks(a: seq<HeapNode>): seq<Links> {
    seq(|a|, i => LinksAt(a, i))
  }

  /** All the links a swap of position `c` with its parent rewrites, in order. */
  function SwappedLinks(a: seq<HeapNode>, c: int): seq<Links>
    requires 0 < c < |a|
  {
    var i := Up(c);
    var s1 := Exchanged(LevelLinks(a), a, i, c);
    var s2 := Adopted(s1, 4 * i + 3 - c, a[c]);
    var s3 := Adopted(s2, 2 * c + 1, a[i]);
    var s4 := Adopted(s3, 2 * c + 2, a[i]);
    Redirected(s4, if i == 0 then -1 else Up(i), a[i], a[c])
  }

  lemma AdoptedAt(s: seq<Links>, j: int, p: HeapNode, k: int)
    requires 0 <= k < |s|
    ensures |Adopted(s, j, p)| == |s| && Adopted(s, j, p)[k] == if k == j then s[k].(parent := p) else s[k]
  {
  }

  lemma RedirectedAt(s: seq<Links>, j: int, from: HeapNode, to: HeapNode, k: int)
    requires 0 <= k < |s|
    ensures |Redirected(s, j, from, to)| == |s|
    ensures Redirected(s, j, from, to)[k]
         == if k != j then s[k] else if s[k].left == from then s[k].(left := to) else s[k].(right := to)
  {
  }

  lemma ExchangedAt(s: seq<Links>, a: seq<HeapNode>, i: int, c: int, k: int)
    requires 0 <= i < |s| == |a| && 0 <= c < |s| && i != c && 0 <= k < |s|
    ensures |Exchanged(s, a, i, c)| == |s|
    ensures Exchanged(s, a, i, c)[k]
         == if k == i then Links(s[c].left, s[c].right, a[c])
            else if k != c then s[k]
            else if s[i].left == a[c] then Links(a[i], s[i].right, s[i].parent)
            else Links(s[i].left, a[i], s[i].parent)
  {
  }

  /** What stands at `k` when all of it is done. */
  lemma SwappedAt(a: seq<HeapNode>, c: int, k: int)
    requires 0 < c < |a| && 0 <= k < |a|
    ensures |SwappedLinks(a, c)| == |a|
    ensures var i := Up(c);
            var s := LevelLinks(a);
            var e := Exchanged(s, a, i, c)[k];
            var p := (if k == 2 * c + 1 || k == 2 * c + 2 then a[i] else if k == 4 * i + 3 - c then a[c] else e.parent);
            (SwappedLinks(a, c)[k]
          == if k != (if i == 0 then -1 else Up(i)) then e.(parent := p)
             else if e.left == a[i] then Links(a[c], e.right, p) else Links(e.left, a[c], p))
  {
    hide Adopted, Redirected, Exchanged, LevelLinks;
    var i := Up(c);
    var s0 := LevelLinks(a);
    LevelSize(a);
    ExchangedAt(s0, a, i, c, k);
    var s1 := Exchanged(s0, a, i, c);
    AdoptedAt(s1, 4 * i + 3 - c, a[c], k);
    var s2 := Adopted(s1, 4 * i + 3 - c, a[c]);
    AdoptedAt(s2, 2 * c + 1, a[i], k);
    var s3 := Adopted(s2, 2 * c + 1, a[i]);
    AdoptedAt(s3, 2 * c + 2, a[i], k);
    var s4 := Adopted(s3, 2 * c + 2, a[i]);
    RedirectedAt(s4, if i == 0 then -1 else Up(i), a[i], a[c], k);
  }

  lemma LevelSize(a: seq<HeapNode>)
    ensures |LevelLinks(a)| == |a|
  {
  }

  /** They are the links of the level order with the two nodes exchanged. */
  lemma SwapResult(a: seq<HeapNode>, c: int, k: int)
    requires 0 < c < |a| && Distinct(a) && 0 <= k < |a|
    ensures |SwappedLinks(a, c)| == |a|
    ensures SwappedLinks(a, c)[k]
         == LinksAt(Swapped(a, Up(c), c), if k == c then Up(c) else if k == Up(c) then c else k)
  {
    hide SwappedLinks, Exchanged;
    var i := Up(c);
    SwappedAt(a, c, k);
    LevelSize(a);
    ExchangedAt(LevelLinks(a), a, i, c, k);
  }

  lemma SwapDistinct(a: seq<HeapNode>, i: int, c: int)
    requires 0 <= i < |a| && 0 <= c < |a| && Distinct(a)
    ensures Distinct(Swapped(a, i, c)) && Members(Swapped(a, i, c)) == Members(a)
  {
    var b := Swapped(a, i, c);
    assert b[i] == a[c] && b[c] == a[i];
    assert forall k :: 0 <= k < |a| ==> a[k] == b[if k == c then i else if k == i then c else k];
  }

  lemma WiredShows(a: seq<HeapNode>)
    ensures |LevelLinks(a)| == |a|
    ensures AllWired(a) <==> AllShow(a, LevelLinks(a))
  {
    if AllShow(a, LevelLinks(a)) {
      forall i | 0 <= i < |a|
        ensures Wired(a, i)
      {
        assert Shows(a[i], LevelLinks(a)[i]);
      }
    }
    if AllWired(a) {
      forall i | 0 <= i < |a|
        ensures Shows(a[i], LevelLinks(a)[i])
      {
        assert Wired(a, i);
      }
    }
  }

  lemma ShownAt(a: seq<HeapNode>, s: seq<Links>, k: int)
    requires AllShow(a, s) && 0 <= k < |a|
    ensures |s| == |a| && Shows(a[k], s[k])
  {
  }

  lemma SwapWired(a: seq<HeapNode>, c: int)
    requires 0 < c < |a| && Distinct(a) && AllShow(a, SwappedLinks(a, c))
    ensures AllWired(Swapped(a, Up(c), c))
  {
    hide SwappedLinks;
    var b := Swapped(a, Up(c), c);
    forall i | 0 <= i < |b|
      ensures Wired(b, i)
    {
      var k := if i == c then Up(c) else if i == Up(c) then c else i;
      assert b[i] == a[k];
      ShownAt(a, SwappedLinks(a, c), k);
      SwapResult(a, c, k);
    }
  }

  /** Where the nodes around a swap are. */
  lemma Around(a: seq<HeapNode>, c: int)
    requires 0 < c < |a| && Distinct(a)
    ensures var i := Up(c);
            var up := LevelLinks(a)[i];
            && 0 <= i < c && (up.left == a[c] || up.right == a[c]) && up.left != a[i] && a[i] != a[c]
            && (if up.left == a[c] then up.right else up.left) == At(a, 4 * i + 3 - c)
    ensures var i := Up(c);
            var s := Exchanged(LevelLinks(a), a, i, c);
            && s[i].left == At(a, 2 * c + 1) && s[i].right == At(a, 2 * c + 2)
            && s[c].parent == At(a, if i == 0 then -1 else Up(i))
  {
  }

  lemma AdoptedKeeps(s: seq<Links>, k: int, p: HeapNode, i: int)
    requires 0 <= i < |s|
    ensures |Adopted(s, k, p)| == |s|
    ensures Adopted(s, k, p)[i].left == s[i].left && Adopted(s, k, p)[i].right == s[i].right
    ensures i != k ==> Adopted(s, k, p)[i] == s[i]
  {
  }

  lemma AtMember(a: seq<HeapNode>, k: int)
    ensures Just(At(a, k)) <= Members(a)
    ensures 0 <= k < |a| ==> a[k] in Members(a)
    ensures At(a, k) == null <==> !(0 <= k < |a|)
  {
  }

  lemma RootAfter(a: seq<HeapNode>, c: int)
    requires 0 < c < |a|
    ensures |Swapped(a, Up(c), c)| == |a|
    ensures At(Swapped(a, Up(c), c), 0) == if Up(c) == 0 then a[c] else a[0]
  {
  }

  /** heap_node_swap: the pointers. */
  method Rewire(h: Heap, parent: HeapNode, child: HeapNode, ghost a: seq<HeapNode>, ghost c: int)
    requires 0 < c < |a| && child == a[c] && parent == a[Up(c)] && Distinct(a) && AllShow(a, LevelLinks(a))
    modifies h`min, Members(a)
    ensures AllShow(a, SwappedLinks(a, c))
    ensures h.min == if Up(c) == 0 then child else old(h.min)
  {
    hide Distinct, AllShow, Exchanged, Adopted, Redirected, LevelLinks, Members, At;
    ghost var i := Up(c);
    ghost var s := LevelLinks(a);
    ghost var g := if i == 0 then -1 else Up(i);
    LevelSize(a);
    Around(a, c);
    AtMember(a, 4 * i + 3 - c);
    AtMember(a, 2 * c + 1);
    AtMember(a, 2 * c + 2);
    AtMember(a, g);
    AtMember(a, i);
    AtMember(a, c);
    var sibling := Exchange(parent, child, a, s, i, c);
    s := Exchanged(s, a, i, c);
    ShownAt(a, s, i);
    AdoptedKeeps(s, 4 * i + 3 - c, child, i);
    AdoptedKeeps(s, 4 * i + 3 - c, child, c);
    Adopt(sibling, child, a, s, 4 * i + 3 - c);
    s := Adopted(s, 4 * i + 3 - c, child);
    ShownAt(a, s, i);
    AdoptedKeeps(s, 2 * c + 1, parent, i);
    AdoptedKeeps(s, 2 * c + 1, parent, c);
    Adopt(parent.left, parent, a, s, 2 * c + 1);
    s := Adopted(s, 2 * c + 1, parent);
    ShownAt(a, s, i);
    AdoptedKeeps(s, 2 * c + 2, parent, c);
    Adopt(parent.right, parent, a, s, 2 * c + 2);
    s := Adopted(s, 2 * c + 2, parent);
    ShownAt(a, s, c);
    Redirect(h, child.parent, parent, child, a, s, g);
  }

  /** heap_node_swap. */
  method NodeSwap(h: Heap, parent: HeapNode, child: HeapNode, ghost c: int)
    requires h.Complete() && 0 < c < |h.level| && child == h.level[c] && parent == h.level[Up(c)]
    modifies h, Members(h.level)
    ensures h.Complete() && h.level == Swapped(old(h.level), Up(c), c)
  {
    hide Distinct, AllShow, SwappedLinks, Swapped, AllWired, Members, LevelLinks;
    ghost var a := h.level;
    WiredShows(a);
    Rewire(h, parent, child, a, c);
    SwapDistinct(a, Up(c), c);
    SwapWired(a, c);
    RootAfter(a, c);
    h.level := Swapped(a, Up(c), c);
  }

  // ---- Finding a position by the bits of its number

  /** A `struct heap_node **`: the link that is read or written. */
  datatype Slot = MinLink | LeftLink(owner: HeapNode) | RightLink(owner: HeapNode)

  function Deref(h: Heap, s: Slot): HeapNode?
    reads h, if s.MinLink? then {} else {s.owner}
  {
    match s
    case MinLink => h.min
    case LeftLink(n) => n.left
    case RightLink(n) => n.right
  }

  method Store(h: Heap, s: Slot, v: HeapNode?)
    modifies h`min, (if s.MinLink? then {} else {s.owner})`left, (if s.MinLink? then {} else {s.owner})`right
    ensures Deref(h, s) == v
    ensures !s.MinLink? ==> h.min == old(h.min)
    ensures s.LeftLink? ==> s.owner.right == old(s.owner.right)
    ensures s.RightLink? ==> s.owner.left == old(s.owner.left)
  {
    match s
    case MinLink => h.min := v;
    case LeftLink(n) => n.left := v;
    case RightLink(n) => n.right := v;
  }

  /** The link that leads to position `i`. */
  function LinkTo(a: seq<HeapNode>, i: int): Slot
    requires 0 <= i && Up(i) < |a|
  {
    if i == 0 then MinLink else if i % 2 == 1 then LeftLink(a[Up(i)]) else RightLink(a[Up(i)])
  }

  lemma LinkToLeads(h: Heap, a: seq<HeapNode>, i: int)
    requires AllWired(a) && h.min == At(a, 0) && 0 <= i && Up(i) < |a|
    ensures Deref(h, LinkTo(a, i)) == At(a, i)
  {
    if i > 0 {
      assert Wired(a, Up(i));
    }
  }

  /** Where the walk ends: the low bits of `path` are taken first. */
  function Walk(i: nat, path: nat, k: nat): nat
    decreases k
  {
    if k == 0 then i else Walk(2 * i + path % 2, path / 2, k - 1)
  }

  lemma {:induction false} WalkGrows(i: nat, path: nat, k: nat)
    ensures Walk(i, path, k) >= (if k == 0 then i else 2 * i)
    decreases k
  {
    if k > 0 {
      WalkGrows(2 * i + path % 2, path / 2, k - 1);
    }
  }

  /** The loop that collects the bits of a number, last bit deepest. */
  method BitsOf(target: nat) returns (path: nat, k: nat)
    requires 1 <= target < U32
    ensures Walk(1, path, k) == target
  {
    hide Walk, Pow2;
    NoBits(target);
    path, k := 0, 0;
    var n := target;
    while n >= 2
      invariant n >= 1 && Walk(n, path, k) == target && path < Pow2(k) && n * Pow2(k) <= target
      decreases n
    {
      NextBit(n, path, k);
      path, n, k := (path * 2) % U32 + n % 2, n / 2, k + 1;
    }
  }

  /** The two loops that collect the bits and follow them, down to position `target - 1`. */
  method FindLink(h: Heap, target: nat) returns (parent: Slot, child: Slot)
    requires h.Complete() && 1 <= target <= |h.level| + 1 && target < U32
    ensures child == LinkTo(h.level, target - 1)
    ensures parent == if target == 1 then MinLink else LinkTo(h.level, Up(target - 1))
  {
    hide Walk, Deref, LinkTo, AllWired, Distinct;
    var path, k := BitsOf(target);
    WalkStep(1, path, k);
    AtTop(h.level);
    parent, child := MinLink, MinLink;
    ghost var i: nat := 1;
    while k > 0
      invariant i >= 1 && Walk(i, path, k) == target && i <= |h.level| + 1
      invariant child == LinkTo(h.level, i - 1)
      invariant parent == if i == 1 then MinLink else LinkTo(h.level, Up(i - 1))
      decreases k
    {
      WalkStep(i, path, k);
      LinkToLeads(h, h.level, i - 1);
      LinksBelow(h.level, i);
      parent := child;
      if path % 2 == 1 {
        child := RightLink(Deref(h, child));
      } else {
        child := LeftLink(Deref(h, child));
      }
      i := 2 * i + path % 2;
      path, k := path / 2, k - 1;
    }
    WalkStep(i, path, k);
  }

  lemma AtTop(a: seq<HeapNode>)
    ensures LinkTo(a, 0) == MinLink
  {
  }

  /** The links out of position `i - 1`. */
  lemma LinksBelow(a: seq<HeapNode>, i: nat)
    requires 1 <= i <= |a|
    ensures At(a, i - 1) == a[i - 1] && Up(2 * i) == Up(2 * i - 1) == i - 1
    ensures LinkTo(a, 2 * i - 1) == LeftLink(a[i - 1]) && LinkTo(a, 2 * i) == RightLink(a[i - 1])
  {
  }

  lemma WalkStep(i: nat, path: nat, k: nat)
    ensures k == 0 ==> Walk(i, path, k) == i
    ensures k > 0 ==> Walk(i, path, k) == Walk(2 * i + path % 2, path / 2, k - 1) >= 2 * i + path % 2
  {
    if k > 0 {
      WalkGrows(2 * i + path % 2, path / 2, k - 1);
    }
  }

  lemma NoBits(target: nat)
    ensures Pow2(0) == 1 && Walk(target, 0, 0) == target
  {
  }

  /** One more bit of the number moves into the path, and nothing is shifted out. */
  lemma NextBit(n: nat, path: nat, k: nat)
    requires n >= 2 && path < Pow2(k) && n * Pow2(k) < U32
    ensures path * 2 % U32 == path * 2 && path * 2 + n % 2 < Pow2(k + 1)
    ensures n / 2 * Pow2(k + 1) <= n * Pow2(k)
    ensures Walk(n / 2, path * 2 + n % 2, k + 1) == Walk(n, path, k)
  {
    var p := Pow2(k);
    assert n * p == 2 * p + (n - 2) * p;
    assert n / 2 * (2 * p) == (n / 2 * 2) * p;
    assert n * p == (n / 2 * 2) * p + n % 2 * p;
  }

  // ---- Restoring the order

  /** Only `i` may be less than its parent, and what is below `i` fits above it too. */
  ghost predicate LooseUp(a: seq<HeapNode>, less: Order, i: int) {
    && 0 <= i < |a|
    && (forall j :: 0 < j < |a| && j != i ==> OrderedAt(a, less, j))
    && (forall j :: 0 < j < |a| && Up(j) == i && i > 0 ==> NotLess(a, less, j, Up(i)))
  }

  /** As before, and also the children of `i` may be less than it. */
  ghost predicate LooseBoth(a: seq<HeapNode>, less: Order, i: int) {
    && 0 <= i < |a|
    && (forall j :: 0 < j < |a| && j != i && Up(j) != i ==> OrderedAt(a, less, j))
    && (forall j :: 0 < j < |a| && Up(j) == i && i > 0 ==> NotLess(a, less, j, Up(i)))
  }

  ghost predicate NotLess(a: seq<HeapNode>, less: Order, j: int, k: int)
    requires 0 <= j < |a| && 0 <= k < |a|
  {
    !less(a[j], a[k])
  }

  /** `StrictWeak` for three positions. */
  lemma AtThree(a: seq<HeapNode>, less: Order, x: int, y: int, z: int)
    requires StrictWeak(less, Members(a)) && 0 <= x < |a| && 0 <= y < |a| && 0 <= z < |a|
    ensures !less(a[x], a[x])
    ensures less(a[x], a[y]) && less(a[y], a[z]) ==> less(a[x], a[z])
    ensures less(a[x], a[z]) ==> less(a[x], a[y]) || less(a[y], a[z])
    ensures less(a[x], a[y]) ==> !less(a[y], a[x])
  {
    assert a[x] in Members(a) && a[y] in Members(a) && a[z] in Members(a);
  }

  lemma SiftUpStep(a: seq<HeapNode>, less: Order, i: int)
    requires LooseUp(a, less, i) && i > 0 && less(a[i], a[Up(i)]) && StrictWeak(less, Members(a))
    ensures LooseUp(Swapped(a, Up(i), i), less, Up(i))
  {
    hide StrictWeak;
    var p := Up(i);
    var b := Swapped(a, p, i);
    forall j | 0 < j < |b| && j != p
      ensures OrderedAt(b, less, j)
    {
      AtThree(a, less, i, p, i);
      if j != i {
        assert OrderedAt(a, less, j);
        AtThree(a, less, j, i, p);
      }
      if Up(j) == i {
        assert NotLess(a, less, j, p);
      }
    }
    forall j | 0 < j < |b| && Up(j) == p && p > 0
      ensures NotLess(b, less, j, Up(p))
    {
      assert OrderedAt(a, less, p);
      if j != i {
        assert OrderedAt(a, less, j);
        AtThree(a, less, j, p, Up(p));
      }
    }
  }

  lemma SiftedUp(a: seq<HeapNode>, less: Order, i: int)
    requires LooseUp(a, less, i) && (i > 0 ==> !less(a[i], a[Up(i)]))
    ensures Ordered(a, less)
  {
    forall j | 0 < j < |a|
      ensures OrderedAt(a, less, j)
    {
    }
  }

  /** `s` is the child of `i` to swap with: less than it, and not greater than the other. */
  ghost predicate IsSmallest(a: seq<HeapNode>, less: Order, i: int, s: int) {
    && 0 <= i < |a| && 0 < s < |a| && Up(s) == i && less(a[s], a[i])
    && forall j :: 0 < j < |a| && Up(j) == i ==> NotLess(a, less, j, s)
  }

  lemma SiftDownStep(a: seq<HeapNode>, less: Order, i: int, s: int)
    requires LooseBoth(a, less, i) && IsSmallest(a, less, i, s) && StrictWeak(less, Members(a))
    ensures LooseBoth(Swapped(a, i, s), less, s)
  {
    hide StrictWeak;
    var b := Swapped(a, i, s);
    forall j | 0 < j < |b| && j != s && Up(j) != s
      ensures OrderedAt(b, less, j)
    {
      if j == i {
        assert NotLess(a, less, s, Up(i));
      } else if Up(j) == i {
        assert NotLess(a, less, j, s);
      } else {
        assert OrderedAt(a, less, j);
      }
    }
    forall j | 0 < j < |b| && Up(j) == s
      ensures NotLess(b, less, j, Up(s))
    {
      assert OrderedAt(a, less, j);
    }
  }

  lemma SiftedDown(a: seq<HeapNode>, less: Order, i: int)
    requires LooseBoth(a, less, i) && forall j :: 0 < j < |a| && Up(j) == i ==> NotLess(a, less, j, i)
    ensures LooseUp(a, less, i)
  {
    forall j | 0 < j < |a| && j != i
      ensures OrderedAt(a, less, j)
    {
      if Up(j) == i {
        assert NotLess(a, less, j, i);
      }
    }
  }

  /** The loop that walks up. */
  method SiftUp(h: Heap, node: HeapNode, less: Order, ghost i_: int)
    requires h.Complete() && LooseUp(h.level, less, i_) && StrictWeak(less, Members(h.level))
    requires 0 <= i_ < |h.level| && h.level[i_] == node
    modifies h, Members(h.level)
    ensures h.Complete() && Ordered(h.level, less)
    ensures Members(h.level) == old(Members(h.level)) && |h.level| == |old(h.level)|
  {
    hide Distinct, StrictWeak, LooseUp, Ordered, Members, Swapped, AllWired;
    ghost var i := i_;
    WiredAt(h.level, i);
    while node.parent != null && less(node, node.parent)
      invariant h.Complete() && LooseUp(h.level, less, i) && 0 <= i < |h.level| && h.level[i] == node
      invariant node.parent == if i == 0 then null else At(h.level, Up(i))
      invariant Members(h.level) == old(Members(h.level)) && |h.level| == |old(h.level)|
      decreases i
    {
      SiftUpStep(h.level, less, i);
      SwapDistinct(h.level, Up(i), i);
      SwapEnds(h.level, Up(i), i);
      NodeSwap(h, node.parent, node, i);
      i := Up(i);
      WiredAt(h.level, i);
    }
    SiftedUp(h.level, less, i);
  }

  lemma WiredAt(a: seq<HeapNode>, i: int)
    requires AllWired(a) && 0 <= i < |a|
    ensures Shows(a[i], LinksAt(a, i)) && Up(i) < |a|
  {
    assert Wired(a, i);
  }

  lemma SwapEnds(a: seq<HeapNode>, i: int, c: int)
    requires 0 <= i < |a| && 0 <= c < |a|
    ensures var b := Swapped(a, i, c); |b| == |a| && b[i] == a[c] && b[c] == a[i]
  {
  }

  /** The child the downward loop picks, or `i` itself. */
  function Smallest(a: seq<HeapNode>, less: Order, i: int): int
    requires 0 <= i < |a|
  {
    var l, r := 2 * i + 1, 2 * i + 2;
    var s := if l < |a| && less(a[l], a[i]) then l else i;
    if r < |a| && less(a[r], a[s]) then r else s
  }

  lemma SmallestIs(a: seq<HeapNode>, less: Order, i: int)
    requires 0 <= i < |a| && StrictWeak(less, Members(a))
    ensures var s := Smallest(a, less, i);
            if s == i then forall j :: 0 < j < |a| && Up(j) == i ==> NotLess(a, less, j, i)
            else IsSmallest(a, less, i, s) && i < s
  {
    hide StrictWeak;
    var s := Smallest(a, less, i);
    if 2 * i + 2 < |a| {
      AtThree(a, less, 2 * i + 2, 2 * i + 1, i);
    }
    forall j | 0 < j < |a| && Up(j) == i
      ensures NotLess(a, less, j, s)
    {
      assert j == 2 * i + 1 || j == 2 * i + 2;
      AtThree(a, less, j, s, i);
      AtThree(a, less, s, j, i);
    }
  }

  /** The loop that walks down. */
  method SiftDown(h: Heap, child: HeapNode, less: Order, ghost i_: int) returns (ghost i: int)
    requires h.Complete() && LooseBoth(h.level, less, i_) && StrictWeak(less, Members(h.level))
    requires 0 <= i_ < |h.level| && h.level[i_] == child
    modifies h, Members(h.level)
    ensures h.Complete() && 0 <= i < |h.level| && LooseUp(h.level, less, i) && h.level[i] == child
    ensures Members(h.level) == old(Members(h.level)) && |h.level| == |old(h.level)|
  {
    hide Distinct, StrictWeak, LooseUp, LooseBoth, Members, Swapped, AllWired, Smallest;
    i := i_;
    while true
      invariant h.Complete() && LooseBoth(h.level, less, i) && 0 <= i < |h.level| && h.level[i] == child
      invariant Members(h.level) == old(Members(h.level)) && |h.level| == |old(h.level)|
      decreases |h.level| - i
    {
      WiredAt(h.level, i);
      SmallestIs(h.level, less, i);
      var smallest := child;
      if child.left != null && less(child.left, smallest) {
        smallest := child.left;
      }
      if child.right != null && less(child.right, smallest) {
        smallest := child.right;
      }
      ghost var s := Smallest(h.level, less, i);
      SmallestAt(h.level, less, i);
      if smallest == child {
        DistinctAt(h.level, i, s);
        SiftedDown(h.level, less, i);
        break;
      }
      SiftDownStep(h.level, less, i, s);
      SwapDistinct(h.level, i, s);
      SwapEnds(h.level, i, s);
      NodeSwap(h, child, smallest, s);
      i := s;
    }
  }

  lemma DistinctAt(a: seq<HeapNode>, i: int, j: int)
    requires Distinct(a) && 0 <= i < |a| && 0 <= j < |a| && a[i] == a[j]
    ensures i == j
  {
  }

  /** What the two comparisons of the code compute. */
  lemma SmallestAt(a: seq<HeapNode>, less: Order, i: int)
    requires 0 <= i < |a|
    ensures var l, r := At(a, 2 * i + 1), At(a, 2 * i + 2);
            var first := if l != null && less(l, a[i]) then l else a[i];
            && 0 <= Smallest(a, less, i) < |a|
            && a[Smallest(a, less, i)] == if r != null && less(r, first) then r else first
  {
  }

  // ---- Insertion

  lemma Grown(a: seq<HeapNode>, n: HeapNode, k: int)
    requires 0 <= k <= |a|
    ensures var b := a + [n];
            && (k == |a| ==> LinksAt(b, k) == Links(null, null, if k == 0 then null else At(a, Up(k))))
            && (k < |a| && k != Up(|a|) ==> LinksAt(b, k) == LinksAt(a, k))
            && (k < |a| && k == Up(|a|) && |a| % 2 == 1 ==> LinksAt(b, k) == LinksAt(a, k).(left := n))
            && (k < |a| && k == Up(|a|) && |a| % 2 == 0 ==> LinksAt(b, k) == LinksAt(a, k).(right := n))
  {
  }

  lemma GrownOrder(a: seq<HeapNode>, n: HeapNode, less: Order)
    requires Ordered(a, less)
    ensures LooseUp(a + [n], less, |a|)
  {
    var b := a + [n];
    forall j | 0 < j < |b| && j != |a|
      ensures OrderedAt(b, less, j)
    {
      assert OrderedAt(a, less, j);
    }
  }

  lemma GrownDistinct(a: seq<HeapNode>, n: HeapNode)
    requires Distinct(a) && n !in Members(a)
    ensures Distinct(a + [n])
    ensures forall k :: 0 <= k < |a| && |a| > 0 && k != Up(|a|) ==> a[k] != a[Up(|a|)]
  {
  }

  /** The new node becomes the last position. */
  method Append(h: Heap, newnode: HeapNode)
    requires h.Complete() && newnode !in Members(h.level) && |h.level| + 1 < U32
    modifies h, Members(h.level), newnode
    ensures h.Complete() && h.level == old(h.level) + [newnode]
  {
    hide Distinct, LinksAt;
    newnode.left, newnode.right, newnode.parent := null, null, null;
    ghost var a := h.level;
    GrownDistinct(a, newnode);
    var parent, child := FindLink(h, 1 + h.nelts);
    if |a| > 0 {
      WiredAt(a, Up(|a|));
      LinkToLeads(h, a, Up(|a|));
    }
    newnode.parent := Deref(h, parent);
    Store(h, child, newnode);
    h.nelts := (h.nelts + 1) % U32;
    h.level := a + [newnode];
    forall k | 0 <= k < |h.level|
      ensures Wired(h.level, k)
    {
      Grown(a, newnode, k);
      assert k < |a| ==> old(Wired(a, k));
    }
  }

  /** heap_insert. */
  method Insert(h: Heap, newnode: HeapNode, less: Order)
    requires h.Complete() && Ordered(h.level, less) && newnode !in Members(h.level)
    requires |h.level| + 1 < U32 && StrictWeak(less, Members(h.level) + {newnode})
    modifies h, Members(h.level), newnode
    ensures h.Complete() && Ordered(h.level, less)
    ensures Members(h.level) == old(Members(h.level)) + {newnode} && |h.level| == |old(h.level)| + 1
  {
    hide Distinct, StrictWeak, LooseUp, Ordered, AllWired;
    ghost var a := h.level;
    Append(h, newnode);
    GrownOrder(a, newnode, less);
    assert Members(h.level) == Members(a) + {newnode};
    SiftUp(h, newnode, less, |a|);
  }

  // ---- Removal

  /** The last position is unlinked. */
  lemma Shrunk(a: seq<HeapNode>, k: int)
    requires 0 <= k < |a| - 1
    ensures var b := a[..|a| - 1];
            var m := |a| - 1;
            && (k != Up(m) ==> LinksAt(b, k) == LinksAt(a, k))
            && (k == Up(m) && m % 2 == 1 ==> LinksAt(b, k) == LinksAt(a, k).(left := null))
            && (k == Up(m) && m % 2 == 0 ==> LinksAt(b, k) == LinksAt(a, k).(right := null))
  {
  }

  /** `*max = NULL`, with the count already lowered. */
  method DropLast(h: Heap) returns (child: HeapNode)
    requires h.Complete() && |h.level| > 0
    modifies h, Members(h.level)
    ensures h.Complete() && h.level == old(h.level)[..|old(h.level)| - 1] && child == old(h.level)[|old(h.level)| - 1]
  {
    ghost var a := h.level;
    var _, max := FindLink(h, h.nelts);
    LinkToLeads(h, a, |a| - 1);
    h.nelts := h.nelts - 1;
    child := Deref(h, max);
    Store(h, max, null);
    h.level := a[..|a| - 1];
    forall k | 0 <= k < |h.level|
      ensures Wired(h.level, k)
    {
      Shrunk(a, k);
      assert old(Wired(a, k));
    }
  }

  /** The links once `to` stands at position `r` instead of what was there. */
  function Reseated(a: seq<HeapNode>, r: int, to: HeapNode): seq<Links>
    requires 0 <= r < |a|
  {
    var s1 := Adopted(LevelLinks(a), 2 * r + 1, to);
    var s2 := Adopted(s1, 2 * r + 2, to);
    Redirected(s2, if r == 0 then -1 else Up(r), a[r], to)
  }

  lemma ReseatedAt(a: seq<HeapNode>, r: int, to: HeapNode, k: int)
    requires 0 <= r < |a| && 0 <= k < |a| && Distinct(a) && to !in Members(a)
    ensures |Reseated(a, r, to)| == |a|
    ensures Reseated(a, r, to)[k] == LinksAt(a[r := to], k)
  {
    hide Adopted, Redirected;
    var s0 := LevelLinks(a);
    AdoptedAt(s0, 2 * r + 1, to, k);
    var s1 := Adopted(s0, 2 * r + 1, to);
    AdoptedAt(s1, 2 * r + 2, to, k);
    var s2 := Adopted(s1, 2 * r + 2, to);
    RedirectedAt(s2, if r == 0 then -1 else Up(r), a[r], to, k);
  }

  lemma ReseatStart(a: seq<HeapNode>, r: int, to: HeapNode)
    requires 0 <= r < |a|
    ensures LevelLinks(a)[r] == LinksAt(a, r)
    ensures to in Members(a) <==> to in a
  {
  }

  lemma ReseatWired(a: seq<HeapNode>, r: int, to: HeapNode)
    requires 0 <= r < |a| && Distinct(a) && to !in Members(a)
    requires AllShow(a, Reseated(a, r, to)) && Shows(to, LinksAt(a, r))
    ensures var b := a[r := to];
            AllWired(b) && Distinct(b) && |b| == |a| && At(b, 0) == if r == 0 then to else At(a, 0)
  {
    hide Reseated;
    var b := a[r := to];
    forall k | 0 <= k < |b|
      ensures Wired(b, k)
    {
      if k == r {
        assert LinksAt(b, r) == LinksAt(a, r);
      } else {
        ShownAt(a, Reseated(a, r, to), k);
        ReseatedAt(a, r, to, k);
      }
    }
  }

  /** `child`, which is linked nowhere, takes over the links of `node`. */
  method TakePlace(h: Heap, node: HeapNode, child: HeapNode, ghost r: int)
    requires h.Complete() && 0 <= r < |h.level| && h.level[r] == node && child !in Members(h.level)
    modifies h, Members(h.level), child
    ensures h.Complete() && h.level == old(h.level)[r := child]
  {
    hide Distinct, AllShow, Adopted, Redirected, LevelLinks, Members, At, AllWired;
    ghost var a := h.level;
    ghost var s := LevelLinks(a);
    ghost var g := if r == 0 then -1 else Up(r);
    WiredShows(a);
    ShownAt(a, s, r);
    ReseatStart(a, r, child);
    AtMember(a, 2 * r + 1);
    AtMember(a, 2 * r + 2);
    AtMember(a, g);
    AtMember(a, r);
    child.left := node.left;
    child.right := node.right;
    child.parent := node.parent;
    AdoptedKeeps(s, 2 * r + 1, child, r);
    Adopt(child.left, child, a, s, 2 * r + 1);
    s := Adopted(s, 2 * r + 1, child);
    AdoptedKeeps(s, 2 * r + 2, child, r);
    Adopt(child.right, child, a, s, 2 * r + 2);
    s := Adopted(s, 2 * r + 2, child);
    ShownAt(a, s, r);
    Redirect(h, node.parent, node, child, a, s, g);
    h.level := a[r := child];
    ReseatWired(a, r, child);
  }

  lemma RemovedMembers(a: seq<HeapNode>, r: int)
    requires Distinct(a) && 0 <= r < |a|
    ensures var b := a[..|a| - 1];
            var c := a[|a| - 1];
            && c !in Members(b) && Members(b) == Members(a) - {c}
            && (r < |a| - 1 ==> Members(b[r := c]) == Members(a) - {a[r]})
  {
    var b := a[..|a| - 1];
    var c := a[|a| - 1];
    assert forall k :: 0 <= k < |b| ==> b[k] == a[k];
    if r < |a| - 1 {
      var d := b[r := c];
      assert d[r] == c;
      assert forall k :: 0 <= k < |a| && k != r ==> a[k] == d[if k == |a| - 1 then r else k];
    }
  }

  lemma RemovedOrder(a: seq<HeapNode>, r: int, less: Order)
    requires 0 <= r < |a| && Ordered(a, less)  && StrictWeak(less, Members(a))
    ensures Ordered(a[..|a| - 1], less)
    ensures r < |a| - 1 ==> LooseBoth(a[..|a| - 1][r := a[|a| - 1]], less, r)
  {
    hide StrictWeak;
    var b := a[..|a| - 1];
    forall j | 0 < j < |b|
      ensures OrderedAt(b, less, j)
    {
      assert OrderedAt(a, less, j);
    }
    if r < |b| {
      var d := b[r := a[|a| - 1]];
      forall j | 0 < j < |d| && j != r && Up(j) != r
        ensures OrderedAt(d, less, j)
      {
        assert OrderedAt(a, less, j);
      }
      forall j | 0 < j < |d| && Up(j) == r && r > 0
        ensures NotLess(d, less, j, Up(r))
      {
        assert OrderedAt(a, less, j) && OrderedAt(a, less, r);
        AtThree(a, less, j, r, Up(r));
      }
    }
  }

  /** heap_remove. */
  method Remove(h: Heap, node: HeapNode?, less: Order)
    requires h.Complete() && Ordered(h.level, less) && StrictWeak(less, Members(h.level))
    requires h.nelts > 0 ==> node != null && node in Members(h.level)
    modifies h, Members(h.level)
    ensures h.Complete() && Ordered(h.level, less)
    ensures Members(h.level) == old(Members(h.level)) - {node}
         && |h.level| == if old(|h.level|) == 0 then 0 else old(|h.level|) - 1
  {
    hide Distinct, StrictWeak, LooseUp, LooseBoth, Ordered, AllWired, Members;
    if h.nelts == 0 {
      Emptied(h.level);
      return;
    }
    ghost var a := h.level;
    ghost var r := PositionOf(a, node);
    RemovedMembers(a, r);
    RemovedOrder(a, r, less);
    AtMember(a, |a| - 1);
    var child := DropLast(h);
    if child == node {
      DistinctAt(a, r, |a| - 1);
      AtMember(h.level, 0);
      // The code also clears `min` when it is `child`; unlinking has done that already.
      assert child != h.min;
      return;
    }
    TakePlace(h, node, child, r);
    StrictWeakLess(less, Members(a), Members(h.level));
    ghost var i := SiftDown(h, child, less, r);
    SiftUp(h, child, less, i);
  }

  lemma Emptied(a: seq<HeapNode>)
    ensures a == [] ==> Members(a) == {}
  {
  }

  lemma PositionOf(a: seq<HeapNode>, n: HeapNode) returns (r: int)
    requires n in Members(a)
    ensures 0 <= r < |a| && a[r] == n
  {
    r :| 0 <= r < |a| && a[r] == n;
  }

  lemma StrictWeakLess(less: Order, s: set<HeapNode>, u: set<HeapNode>)
    requires StrictWeak(less, s) && u <= s
    ensures StrictWeak(less, u)
  {
  }

  /** heap_dequeue. */
  method Dequeue(h: Heap, less: Order)
    requires h.Complete() && Ordered(h.level, less) && StrictWeak(less, Members(h.level))
    modifies h, Members(h.level)
    ensures h.Complete() && Ordered(h.level, less)
    ensures Members(h.level) == old(Members(h.level)) - {old(h.min)}
  {
    AtMember(h.level, 0);
    Remove(h, h.min, less);
  }

  /** heap_min: no node of the heap is less than `min`. */
  lemma MinIsLeast(h: Heap, less: Order, n: HeapNode)
    requires h.Complete() && Ordered(h.level, less) && StrictWeak(less, Members(h.level)) && n in Members(h.level)
    ensures h.min != null && h.min in Members(h.level) && !less(n, h.min)
  {
    var i := PositionOf(h.level, n);
    RootIsLeast(h.level, less, i);
    AtMember(h.level, 0);
  }
}
