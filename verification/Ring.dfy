/** The intrusive circular lists of queue.h: a head node and the nodes linked behind it. */
module Ring {

  class QNode {
    var next: QNode
    var prev: QNode

    /** QUEUE_INIT on a new node. */
    constructor ()
      ensures next == this && prev == this
    {
      next, prev := this, this;
    }
  }

  ghost predicate Distinct(r: seq<QNode>) {
    forall i, j :: 0 <= i < j < |r| ==> r[i] != r[j]
  }

  function After(i: nat, n: nat): nat {
    if i + 1 == n then 0 else i + 1
  }

  function Before(i: nat, n: nat): int {
    if i == 0 then n - 1 else i - 1
  }

  ghost predicate LinkedAt(r: seq<QNode>, i: nat)
    requires i < |r|
    reads r[i]
  {
    r[i].next == r[After(i, |r|)] && r[i].prev == r[Before(i, |r|)]
  }

  /** The nodes of `r`, in this order, form one circle. */
  ghost predicate Circle(r: seq<QNode>)
    reads r
  {
    |r| > 0 && Distinct(r) && forall i: nat :: i < |r| ==> LinkedAt(r, i)
  }

  /** `h` is the head of a queue holding `s`. */
  ghost predicate Queue(h: QNode, s: seq<QNode>)
    reads h, s
  {
    Circle([h] + s)
  }

  /** QUEUE_INIT. */
  method Init(q: QNode)
    modifies q
    ensures Queue(q, [])
  {
    q.next := q;
    q.prev := q;
    assert LinkedAt([q] + [], 0);
  }

  // ---- Circles with a node more or less

  lemma HeadShape(h: QNode, q: QNode, s: seq<QNode>)
    requires Distinct([h] + s) && q != h && q !in s
    ensures var r, u := [h] + s, [h] + ([q] + s);
            && |u| == |r| + 1 && Distinct(u) && u[0] == h && u[1] == q && r[0] == h
            && (forall i :: 0 <= i < |r| ==> r[i] != q)
            && (forall i :: 1 < i < |u| ==> u[i] == r[i - 1])
  {
    var r, u := [h] + s, [h] + ([q] + s);
    assert forall i :: 0 < i < |r| ==> r[i] == s[i - 1];
    forall i, j | 0 <= i < j < |u|
      ensures u[i] != u[j]
    {
      assert u[j] == (if j == 1 then q else r[j - 1])
          && u[i] == if i == 0 then r[0] else if i == 1 then q else r[i - 1];
    }
  }

  lemma TailShape(h: QNode, q: QNode, s: seq<QNode>)
    requires Distinct([h] + s) && q != h && q !in s
    ensures var r, u := [h] + s, [h] + (s + [q]);
            && |u| == |r| + 1 && Distinct(u) && u[|r|] == q && r[0] == h
            && (forall i :: 0 <= i < |r| ==> r[i] != q)
            && (forall i :: 0 <= i < |r| ==> u[i] == r[i])
  {
    var r, u := [h] + s, [h] + (s + [q]);
    assert forall i :: 0 < i < |r| ==> r[i] == s[i - 1];
    forall i, j | 0 <= i < j < |u|
      ensures u[i] != u[j]
    {
      assert u[i] == r[i] && u[j] == if j < |r| then r[j] else q;
    }
  }

  lemma RemovedShape(h: QNode, s: seq<QNode>, k: nat)
    requires Distinct([h] + s) && k < |s|
    ensures var r, u := [h] + s, [h] + (s[..k] + s[k + 1..]);
            && |u| == |r| - 1 && Distinct(u) && r[k + 1] == s[k]
            && (forall i :: 0 <= i < |u| ==> u[i] == if i < k + 1 then r[i] else r[i + 1])
  {
    var r, u := [h] + s, [h] + (s[..k] + s[k + 1..]);
    assert forall i :: 0 <= i < |u| ==> u[i] == if i < k + 1 then r[i] else r[i + 1];
    forall i, j | 0 <= i < j < |u|
      ensures u[i] != u[j]
    {
      assert u[i] == r[if i < k + 1 then i else i + 1] && u[j] == r[if j < k + 1 then j else j + 1];
    }
  }

  /** QUEUE_INSERT_HEAD. */
  method InsertHead(h: QNode, q: QNode, ghost s: seq<QNode>)
    requires Queue(h, s) && q != h && q !in s
    modifies h, s, q
    ensures Queue(h, [q] + s)
  {
    hide Distinct;
    ghost var r := [h] + s;
    HeadShape(h, q, s);
    ghost var u := [h] + ([q] + s);
    DistinctAt(r);
    assert LinkedAt(r, 0);
    q.next := h.next;
    q.prev := h;
    q.next.prev := q;
    h.next := q;
    forall i: nat | i < |u|
      ensures LinkedAt(u, i)
    {
      assert i >= 2 ==> old(LinkedAt(r, i - 1));
    }
  }

  lemma DistinctAt(r: seq<QNode>)
    requires Distinct(r)
    ensures forall i, j :: 0 <= i < |r| && 0 <= j < |r| && r[i] == r[j] ==> i == j
  {
  }

  /** QUEUE_INSERT_TAIL. */
  method InsertTail(h: QNode, q: QNode, ghost s: seq<QNode>)
    requires Queue(h, s) && q != h && q !in s
    modifies h, s, q
    ensures Queue(h, s + [q])
  {
    hide Distinct;
    ghost var r := [h] + s;
    TailShape(h, q, s);
    ghost var u := [h] + (s + [q]);
    DistinctAt(r);
    assert LinkedAt(r, 0);
    q.next := h;
    q.prev := h.prev;
    q.prev.next := q;
    h.prev := q;
    forall i: nat | i < |u|
      ensures LinkedAt(u, i)
    {
      assert i < |r| ==> old(LinkedAt(r, i));
    }
  }

  /** QUEUE_REMOVE, of any node of the queue. */
  method Remove(q: QNode, ghost h: QNode, ghost s: seq<QNode>, ghost k: nat)
    requires Queue(h, s) && k < |s| && s[k] == q
    modifies h, s
    ensures Queue(h, s[..k] + s[k + 1..])
  {
    hide Distinct;
    ghost var r := [h] + s;
    RemovedShape(h, s, k);
    ghost var u := [h] + (s[..k] + s[k + 1..]);
    DistinctAt(r);
    assert LinkedAt(r, k + 1) && r[k + 1] == q;
    q.prev.next := q.next;
    q.next.prev := q.prev;
    forall i: nat | i < |u|
      ensures LinkedAt(u, i)
    {
      assert old(LinkedAt(r, if i < k + 1 then i else i + 1));
    }
  }

  ghost predicate Apart(a: seq<QNode>, b: seq<QNode>) {
    forall i, j :: 0 <= i < |a| && 0 <= j < |b| ==> a[i] != b[j]
  }

  lemma Chained(r: seq<QNode>, t: seq<QNode>)
    requires Distinct(r) && Distinct(t) && Apart(r, t)
    ensures Distinct(r + t)
  {
  }

  lemma Tail(r: seq<QNode>, k: nat)
    requires Distinct(r) && k <= |r|
    ensures Distinct(r[..k]) && Distinct(r[k..]) && Apart(r[..k], r[k..])
  {
  }

  /** QUEUE_ADD: what hangs on `n` goes to the end of the queue of `h`, also when either
      is empty; the links of `n` itself are left as they were. */
  method Add(h: QNode, n: QNode, ghost s: seq<QNode>, ghost t: seq<QNode>)
    requires Queue(h, s) && Queue(n, t) && Apart([h] + s, [n] + t)
    modifies h, s, n, t
    ensures Queue(h, s + t)
  {
    ghost var r, m := [h] + s, [n] + t;
    ghost var u := [h] + (s + t);
    AddedShape(h, s, n, t);
    DistinctAt(r);
    DistinctAt(m);
    hide Distinct;
    assert LinkedAt(r, 0) && LinkedAt(m, 0);
    assert LinkedAt(r, |r| - 1) && LinkedAt(m, |m| - 1);
    h.prev.next := n.next;
    n.next.prev := h.prev;
    h.prev := n.prev;
    h.prev.next := h;
    forall i: nat | i < |u|
      ensures LinkedAt(u, i)
    {
      if i < |r| {
        assert old(LinkedAt(r, i));
      } else {
        assert old(LinkedAt(m, i - |r| + 1));
      }
    }
  }

  lemma AddedShape(h: QNode, s: seq<QNode>, n: QNode, t: seq<QNode>)
    requires Distinct([h] + s) && Distinct([n] + t) && Apart([h] + s, [n] + t)
    ensures var r, m, u := [h] + s, [n] + t, [h] + (s + t);
            && Distinct(u) && |u| == |r| + |m| - 1
            && forall i :: 0 <= i < |u| ==> u[i] == if i < |r| then r[i] else m[i - |r| + 1]
  {
    var r, m := [h] + s, [n] + t;
    Tail(m, 1);
    assert m[1..] == t;
    assert Apart(r, t) by {
      assert forall j :: 0 <= j < |t| ==> t[j] == m[j + 1];
    }
    Chained(r, t);
    assert [h] + (s + t) == r + t;
  }

  lemma SplitShape(h: QNode, n: QNode, s: seq<QNode>, k: nat)
    requires Distinct([h] + s) && k < |s| && n != h && n !in s
    ensures var r, a, b := [h] + s, [h] + s[..k], [n] + s[k..];
            && Distinct(a) && Distinct(b) && |a| == k + 1 && |b| == |r| - k && b[0] == n
            && (forall i :: 0 <= i < |a| ==> a[i] == r[i])
            && (forall i :: 0 < i < |b| ==> b[i] == r[k + i])
            && (forall i :: 0 <= i < |r| ==> r[i] != n)
  {
    var r := [h] + s;
    Tail(r, k + 1);
    assert r[..k + 1] == [h] + s[..k] && r[k + 1..] == s[k..];
    Chained([n], s[k..]);
  }

  /** QUEUE_SPLIT: from `q` on, the queue of `h` becomes the queue of `n`. */
  method Split(h: QNode, q: QNode, n: QNode, ghost s: seq<QNode>, ghost k: nat)
    requires Queue(h, s) && k < |s| && s[k] == q && n != h && n !in s
    modifies h, s, n
    ensures Queue(h, s[..k]) && Queue(n, s[k..])
  {
    ghost var r, a, b := [h] + s, [h] + s[..k], [n] + s[k..];
    SplitShape(h, n, s, k);
    DistinctAt(r);
    hide Distinct;
    assert LinkedAt(r, 0) && LinkedAt(r, k + 1) && r[k + 1] == q && LinkedAt(r, |r| - 1);
    n.prev := h.prev;
    n.prev.next := n;
    n.next := q;
    h.prev := q.prev;
    h.prev.next := h;
    q.prev := n;
    forall i: nat | i < |a|
      ensures LinkedAt(a, i)
    {
      assert old(LinkedAt(r, i));
    }
    forall i: nat | i < |b|
      ensures LinkedAt(b, i)
    {
      if i > 0 {
        assert old(LinkedAt(r, k + i));
      }
    }
  }

  // ---- Taking nodes out from the front

  function Kept(s: seq<QNode>, drop: QNode -> bool): seq<QNode> {
    if s == [] then [] else (if drop(s[0]) then [] else [s[0]]) + Kept(s[1..], drop)
  }

  function Not(p: QNode -> bool): QNode -> bool {
    (x: QNode) => !p(x)
  }

  lemma {:induction false} KeptAppend(s: seq<QNode>, x: QNode, drop: QNode -> bool)
    ensures Kept(s + [x], drop) == Kept(s, drop) + (if drop(x) then [] else [x])
  {
    if s == [] {
      assert s + [x] == [x];
    } else {
      assert (s + [x])[1..] == s[1..] + [x];
      KeptAppend(s[1..], x, drop);
    }
  }

  lemma {:induction false} KeptIn(s: seq<QNode>, drop: QNode -> bool)
    ensures forall i :: 0 <= i < |Kept(s, drop)| ==> Kept(s, drop)[i] in s
  {
    if s != [] {
      KeptIn(s[1..], drop);
    }
  }

  function Nodes(s: seq<QNode>): set<QNode> {
    set x | x in s
  }

  lemma Apartness(a: seq<QNode>, b: seq<QNode>)
    requires Nodes(a) !! Nodes(b)
    ensures Apart(a, b)
  {
    forall i, j | 0 <= i < |a| && 0 <= j < |b|
      ensures a[i] != b[j]
    {
      assert a[i] in Nodes(a) && b[j] in Nodes(b);
    }
  }

  /** What the loop of tcp__check_queue_timeout knows: `rest` still hangs on `ql`, what was
      kept hangs on `tmp`. */
  ghost predicate Sweeping(ql: QNode, tmp: QNode, rest: seq<QNode>, kept: seq<QNode>)
    reads ql, tmp, rest, kept
  {
    Queue(ql, rest) && Queue(tmp, kept) && Nodes([ql] + rest) !! Nodes([tmp] + kept)
  }

  /** One round: the first node is unlinked, and linked behind `tmp` unless it expired. */
  method SweepRound(ql: QNode, tmp: QNode, expired: QNode -> bool, ghost rest: seq<QNode>, ghost kept: seq<QNode>)
    requires Sweeping(ql, tmp, rest, kept) && rest != []
    modifies ql, tmp, rest, kept
    ensures Sweeping(ql, tmp, rest[1..], if expired(rest[0]) then kept else kept + [rest[0]])
    ensures expired(rest[0]) ==> Queue(rest[0], [])
  {
    EmptyIff(ql, rest);
    FirstNode(ql, rest, tmp, kept);
    hide Circle, Nodes;
    var q := ql.next;
    Remove(q, ql, rest, 0);
    assert rest[..0] + rest[1..] == rest[1..];
    Init(q);
    if !expired(q) {
      InsertTail(tmp, q, kept);
    }
  }

  lemma FirstNode(ql: QNode, rest: seq<QNode>, tmp: QNode, kept: seq<QNode>)
    requires rest != [] && Distinct([ql] + rest) && Nodes([ql] + rest) !! Nodes([tmp] + kept)
    ensures var q := rest[0];
            && q != ql && q != tmp && q !in kept && q !in rest[1..] && tmp != ql && tmp !in rest && ql !in kept
            && (forall i :: 0 <= i < |kept| ==> kept[i] !in rest)
            && Nodes([ql] + rest[1..]) !! Nodes([tmp] + (kept + [q])) && Nodes([ql] + rest[1..]) !! Nodes([tmp] + kept)
  {
    var r := [ql] + rest;
    assert r[0] == ql && forall i :: 0 <= i < |rest| ==> rest[i] == r[i + 1];
    var q := rest[0];
    assert q in Nodes(r) && ql in Nodes(r) && tmp in Nodes([tmp] + kept);
    assert forall i :: 0 <= i < |kept| ==> kept[i] in Nodes([tmp] + kept);
    assert forall i :: 0 <= i < |rest| ==> rest[i] in Nodes(r);
    assert q !in rest[1..];
    assert Nodes([ql] + rest[1..]) <= Nodes(r) - {q};
    assert Nodes([tmp] + (kept + [q])) == Nodes([tmp] + kept) + {q};
  }

  /** The loop of tcp__check_queue_timeout: the queue keeps exactly the nodes that did not
      expire, in their order, and each expired node was met once, in order. */
  method Sweep(ql: QNode, expired: QNode -> bool, ghost s: seq<QNode>) returns (met: seq<QNode>)
    requires Queue(ql, s)
    modifies ql, s
    ensures Queue(ql, Kept(s, expired))
    ensures met == Kept(s, Not(expired))
  {
    hide Queue, Kept, Nodes;
    var tmp := new QNode();
    Alone(tmp);
    SweepStart(ql, tmp, s);
    met := [];
    ghost var i := 0;
    assert s[0..] == s && s[..0] == [];
    KeptNone(expired);
    KeptNone(Not(expired));
    EmptyIff(ql, s);
    while ql.next != ql
      invariant 0 <= i <= |s| && Sweeping(ql, tmp, s[i..], Kept(s[..i], expired))
      invariant ql.next == ql <==> s[i..] == []
      invariant ql.next != ql ==> ql.next == s[i]
      invariant met == Kept(s[..i], Not(expired))
      decreases |s| - i
    {
      var q := ql.next;
      KeptIn(s[..i], expired);
      assert s[..i + 1] == s[..i] + [s[i]];
      KeptAppend(s[..i], s[i], expired);
      KeptAppend(s[..i], s[i], Not(expired));
      assert s[i..][1..] == s[i + 1..];
      ghost var kept := Kept(s[..i], expired);
      assert kept + [] == kept;
      SweepRound(ql, tmp, expired, s[i..], kept);
      if expired(q) {
        met := met + [q];
      }
      i := i + 1;
      EmptyIff(ql, s[i..]);
    }
    assert s[..i] == s;
    SweepEnd(ql, tmp, Kept(s, expired));
    KeptIn(s, expired);
    Add(ql, tmp, [], Kept(s, expired));
    assert [] + Kept(s, expired) == Kept(s, expired);
  }

  lemma KeptNone(drop: QNode -> bool)
    ensures Kept([], drop) == []
  {
  }

  lemma Alone(q: QNode)
    requires q.next == q && q.prev == q
    ensures Queue(q, [])
  {
    assert LinkedAt([q] + [], 0);
  }

  lemma SweepStart(ql: QNode, tmp: QNode, s: seq<QNode>)
    requires Queue(ql, s) && Queue(tmp, []) && tmp != ql && tmp !in s
    ensures Sweeping(ql, tmp, s, [])
  {
  }

  lemma SweepEnd(ql: QNode, tmp: QNode, kept: seq<QNode>)
    requires Sweeping(ql, tmp, [], kept)
    ensures Apart([ql] + [], [tmp] + kept)
  {
    Apartness([ql] + [], [tmp] + kept);
  }

  /** QUEUE_EMPTY and QUEUE_HEAD. */
  lemma EmptyIff(h: QNode, s: seq<QNode>)
    requires Queue(h, s)
    ensures h.next == h <==> s == []
    ensures s != [] ==> h.next == s[0]
  {
    var r := [h] + s;
    assert LinkedAt(r, 0);
    assert s != [] ==> r[1] == s[0] && r[0] != r[1];
  }
}
