/** The queues of the thread pool are first in, first out, in every interleaving: workers
    take items in the order of their submission, and loops call the done callbacks in the
    order in which items were handed back. */
module ThreadPoolOrder {
  import opened ThreadPool

  /** The queue of work, or what a loop still has to complete. */
  datatype Queue = Shared | Finished(l: nat)

  function Jobs(wq: seq<Entry>): seq<nat> {
    if wq == [] then [] else (if wq[0].Job? then [wq[0].w] else []) + Jobs(wq[1..])
  }

  function Line(p: Pool, q: Queue): seq<nat> {
    match q
    case Shared => Jobs(p.wq)
    case Finished(l) => if l < |p.loops| then p.loops[l].draining + p.loops[l].done else []
  }

  /** The states one interleaving goes through. */
  ghost predicate Behaviour(ps: seq<Pool>, es: seq<Step>, workers: nat, loops: nat) {
    && |ps| == |es| + 1 && ps[0] == Init(workers, loops)
    && forall i :: 0 <= i < |es| ==> Enabled(ps[i], es[i]) && ps[i + 1] == Apply(ps[i], es[i])
  }

  /** The item came into the queue at the m-th state and has been there ever since. */
  ghost predicate SinceThen(ps: seq<Pool>, q: Queue, w: nat, m: nat) {
    && 0 < m < |ps| && w !in Line(ps[m - 1], q)
    && forall k :: m <= k < |ps| ==> w in Line(ps[k], q)
  }

  // ---- A step removes items or adds one at the end

  ghost predicate Precedes(s: seq<nat>, x: nat, y: nat) {
    exists i, j :: 0 <= i < j < |s| && s[i] == x && s[j] == y
  }

  /** What is left keeps its order. */
  ghost predicate Thinned(a: seq<nat>, b: seq<nat>) {
    && (forall x <- b :: x in a)
    && forall i, j :: 0 <= i < j < |b| ==> Precedes(a, b[i], b[j])
  }

  ghost predicate Moved(a: seq<nat>, b: seq<nat>) {
    Thinned(a, b) || (|b| == |a| + 1 && b[..|a|] == a && b[|a|] !in a)
  }

  lemma Unchanged(a: seq<nat>)
    ensures Moved(a, a)
  {
    assert Thinned(a, a);
  }

  lemma Tail(a: seq<nat>)
    requires a != []
    ensures Moved(a, a[1..])
  {
    forall i, j | 0 <= i < j < |a[1..]|
      ensures Precedes(a, a[1..][i], a[1..][j])
    {
      assert a[i + 1] == a[1..][i] && a[j + 1] == a[1..][j];
    }
    assert Thinned(a, a[1..]);
  }

  lemma Added(a: seq<nat>, w: nat)
    requires w !in a
    ensures Moved(a, a + [w])
  {
  }

  lemma {:induction false} WithoutPrecedes(a: seq<nat>, x: nat, i: nat, j: nat)
    requires i < j < |Without(a, x)|
    ensures Precedes(a, Without(a, x)[i], Without(a, x)[j])
  {
    var b := Without(a, x);
    var r := a[1..];
    if a[0] == x {
      WithoutPrecedes(r, x, i, j);
      Deeper(a, b[i], b[j]);
    } else if i == 0 {
      WithoutKeeps(r, x);
      assert b[j] == Without(r, x)[j - 1] && b[j] in r;
      var k :| 0 <= k < |r| && r[k] == b[j];
      assert a[0] == b[0] && a[k + 1] == b[j];
    } else {
      WithoutPrecedes(r, x, i - 1, j - 1);
      Deeper(a, b[i], b[j]);
    }
  }

  lemma Deeper(a: seq<nat>, x: nat, y: nat)
    requires a != [] && Precedes(a[1..], x, y)
    ensures Precedes(a, x, y)
  {
    var i, j :| 0 <= i < j < |a[1..]| && a[1..][i] == x && a[1..][j] == y;
    assert a[i + 1] == x && a[j + 1] == y;
  }

  lemma Cut(a: seq<nat>, x: nat)
    ensures Moved(a, Without(a, x))
  {
    WithoutKeeps(a, x);
    forall i, j | 0 <= i < j < |Without(a, x)|
      ensures Precedes(a, Without(a, x)[i], Without(a, x)[j])
    {
      WithoutPrecedes(a, x, i, j);
    }
    assert Thinned(a, Without(a, x));
  }

  lemma {:induction false} WithoutJoined<T>(a: seq<T>, b: seq<T>, x: T)
    ensures Without(a + b, x) == Without(a, x) + Without(b, x)
  {
    if a == [] {
      assert a + b == b;
    } else {
      assert (a + b)[1..] == a[1..] + b;
      WithoutJoined(a[1..], b, x);
    }
  }

  lemma {:induction false} JobsAdded(wq: seq<Entry>, e: Entry)
    ensures Jobs(wq + [e]) == Jobs(wq) + if e.Job? then [e.w] else []
  {
    hide Jobs;
    if wq == [] {
      assert wq + [e] == [e] + [];
      JobsFirst(e, []);
    } else {
      assert wq + [e] == [wq[0]] + (wq[1..] + [e]) && wq == [wq[0]] + wq[1..];
      JobsAdded(wq[1..], e);
      JobsFirst(wq[0], wq[1..] + [e]);
      JobsFirst(wq[0], wq[1..]);
    }
  }

  lemma JobsFirst(e: Entry, r: seq<Entry>)
    ensures Jobs([e] + r) == (if e.Job? then [e.w] else []) + Jobs(r)
    ensures Jobs([]) == []
  {
    assert ([e] + r)[1..] == r;
  }

  lemma {:induction false} JobsWithout(wq: seq<Entry>, w: nat)
    ensures Jobs(Without(wq, Job(w))) == Without(Jobs(wq), w)
  {
    if wq != [] {
      JobsWithout(wq[1..], w);
      var first := if wq[0].Job? then [wq[0].w] else [];
      WithoutJoined(first, Jobs(wq[1..]), w);
      assert Without(first, w) == if wq[0] == Job(w) then [] else first;
      var r := Without(wq[1..], Job(w));
      assert wq[0] != Job(w) ==> ([wq[0]] + r)[1..] == r;
    }
  }

  lemma {:induction false} JobsIn(wq: seq<Entry>, w: nat)
    ensures w in Jobs(wq) <==> Job(w) in wq
  {
    if wq != [] {
      JobsIn(wq[1..], w);
      assert Job(w) in wq <==> wq[0] == Job(w) || Job(w) in wq[1..];
    }
  }

  lemma SharedMoves(p: Pool, e: Step)
    requires Inv(p) && Enabled(p, e)
    ensures Moved(Jobs(p.wq), Jobs(Apply(p, e).wq))
  {
    hide Moved, Jobs, ListsOk, WorksOk;
    Unchanged(Jobs(p.wq));
    match e
    case Submit(w, _) =>
      GetOk(p, w);
      assert !Holds(p, Waiting, w);
      JobsIn(p.wq, w);
      JobsAdded(p.wq, Job(w));
      Added(Jobs(p.wq), w);
    case PostExit =>
      JobsAdded(p.wq, ExitMessage);
      assert Jobs(p.wq) + [] == Jobs(p.wq);
    case Take(_) =>
      TakenJobs(p.wq);
    case Cancel(_, w) =>
      JobsWithout(p.wq, w);
      Cut(Jobs(p.wq), w);
    case _ =>
  }

  lemma TakenJobs(wq: seq<Entry>)
    requires wq != []
    ensures Moved(Jobs(wq), Jobs(wq[1..]))
    ensures wq[0].Job? ==> Jobs(wq) == [wq[0].w] + Jobs(wq[1..])
  {
    hide Moved;
    if wq[0].Job? {
      Tail(Jobs(wq));
    } else {
      assert Jobs(wq) == Jobs(wq[1..]);
      Unchanged(Jobs(wq));
    }
  }

  lemma FinishedMoves(p: Pool, e: Step, l: nat)
    requires Inv(p) && Enabled(p, e)
    ensures Moved(Line(p, Finished(l)), Line(Apply(p, e), Finished(l)))
  {
    hide Moved, Without, ListsOk, WorksOk;
    var a := Line(p, Finished(l));
    Unchanged(a);
    match e
    case Report(k) =>
      HandedBack(p, l, p.workers[k].w);
      assert Holds(p, Executed(k), p.workers[k].w);
    case HandOver(m) =>
      HandedBack(p, l, p.loops[m].cancelling.value);
      assert Holds(p, InCancel(m), p.loops[m].cancelling.value);
    case Cancel(m, w) =>
      if l < |p.loops| {
        WithoutJoined(p.loops[l].draining, p.loops[l].done, w);
        Cut(a, w);
      }
    case Complete(m) =>
      if a != [] {
        Tail(a);
      }
      assert l == m && l < |p.loops| ==> a[1..] == p.loops[l].draining[1..] + p.loops[l].done;
    case Split(m) =>
      assert l == m && l < |p.loops| ==> a == p.loops[l].done && p.loops[l].done + [] == a;
    case _ =>
  }

  /** An item in a worker's or a cancel's hands is in no queue; put at the end of one it
      moves nothing. */
  lemma HandedBack(p: Pool, l: nat, w: nat)
    requires PlacesOk(p)
    ensures var a := Line(p, Finished(l));
            && (!Get(p, w).place.InDone? && !Get(p, w).place.InDraining? ==> w !in a && Moved(a, a + [w]))
            && (l < |p.loops| ==> p.loops[l].draining + (p.loops[l].done + [w]) == a + [w])
  {
    assert Holds(p, InDone(l), w) ==> Get(p, w).place == InDone(l);
    assert Holds(p, InDraining(l), w) ==> Get(p, w).place == InDraining(l);
    var a := Line(p, Finished(l));
    if w !in a {
      Added(a, w);
    }
  }

  lemma LineMoves(p: Pool, e: Step, q: Queue)
    requires Inv(p) && Enabled(p, e)
    ensures Moved(Line(p, q), Line(Apply(p, e), q))
  {
    hide Inv, Moved, Enabled, Jobs;
    match q
    case Shared => SharedMoves(p, e);
    case Finished(l) => FinishedMoves(p, e, l);
  }

  // ---- Every interleaving

  lemma {:induction false} BehaviourKeepsInv(ps: seq<Pool>, es: seq<Step>, workers: nat, loops: nat, i: nat)
    requires Behaviour(ps, es, workers, loops) && i < |ps|
    ensures Inv(ps[i])
  {
    hide Inv, Apply, Enabled;
    if i == 0 {
      InitKeeps(workers, loops);
    } else {
      BehaviourKeepsInv(ps, es, workers, loops, i - 1);
      StepKeeps(ps[i - 1], es[i - 1]);
    }
  }

  /** After any steps the items of a queue stand in it in the order in which they came. */
  lemma {:induction false} FirstComeFirst(ps: seq<Pool>, es: seq<Step>, workers: nat, loops: nat, q: Queue,
                                          x: nat, y: nat, m: nat, n: nat)
    requires Behaviour(ps, es, workers, loops) && Precedes(Line(ps[|es|], q), x, y)
    requires SinceThen(ps, q, x, m) && SinceThen(ps, q, y, n)
    ensures m < n || x == y
    decreases |ps|
  {
    hide Inv, Apply, Enabled, Line;
    var t := |es|;
    assert t > 0;
    var a, b := Line(ps[t - 1], q), Line(ps[t], q);
    BehaviourKeepsInv(ps, es, workers, loops, t - 1);
    LineMoves(ps[t - 1], es[t - 1], q);
    var i, j :| 0 <= i < j < |b| && b[i] == x && b[j] == y;
    if Thinned(a, b) || j < |a| {
      if !Thinned(a, b) {
        assert a[i] == x && a[j] == y;
      }
      assert Precedes(a, x, y) && x in a && y in a;
      assert m < t && n < t;
      FirstComeFirst(ps[..t], es[..t - 1], workers, loops, q, x, y, m, n);
    } else {
      assert a[i] == x;
      assert m < t && n == t;
    }
  }

  /** A worker takes the item that has waited longest. */
  lemma TakesOldest(ps: seq<Pool>, es: seq<Step>, workers: nat, loops: nat, k: nat, w: nat, m: nat, v: nat, n: nat)
    requires Behaviour(ps, es, workers, loops)
    requires var p := ps[|es|]; Enabled(p, Take(k)) && Apply(p, Take(k)).workers[k] == Took(w)
    requires SinceThen(ps, Shared, w, m) && SinceThen(ps, Shared, v, n)
    ensures m < n || v == w
  {
    hide SinceThen, Jobs, Apply, Enabled;
    var p := ps[|es|];
    TakenIsFirst(p, k, w);
    InLine(ps, Shared, v, n);
    HeadPrecedes(Line(p, Shared), v);
    if v != w {
      FirstComeFirst(ps, es, workers, loops, Shared, w, v, m, n);
    }
  }

  lemma TakenIsFirst(p: Pool, k: nat, w: nat)
    requires Enabled(p, Take(k)) && Apply(p, Take(k)).workers[k] == Took(w)
    ensures Jobs(p.wq) != [] && Jobs(p.wq)[0] == w
  {
    TakenJobs(p.wq);
  }

  lemma CompletedIsFirst(p: Pool, l: nat, w: nat)
    requires Enabled(p, Complete(l)) && Get(p, w).dones == 0 && Get(Apply(p, Complete(l)), w).dones == 1
    ensures Line(p, Finished(l)) != [] && Line(p, Finished(l))[0] == w
  {
  }

  /** A loop completes the item that was handed back to it first. */
  lemma CompletesOldest(ps: seq<Pool>, es: seq<Step>, workers: nat, loops: nat, l: nat, w: nat, m: nat, v: nat, n: nat)
    requires Behaviour(ps, es, workers, loops)
    requires var p := ps[|es|];
             Enabled(p, Complete(l)) && Get(p, w).dones == 0 && Get(Apply(p, Complete(l)), w).dones == 1
    requires SinceThen(ps, Finished(l), w, m) && SinceThen(ps, Finished(l), v, n)
    ensures m < n || v == w
  {
    hide SinceThen, Apply, Enabled;
    var p := ps[|es|];
    CompletedIsFirst(p, l, w);
    InLine(ps, Finished(l), v, n);
    HeadPrecedes(Line(p, Finished(l)), v);
    if v != w {
      FirstComeFirst(ps, es, workers, loops, Finished(l), w, v, m, n);
    }
  }

  lemma InLine(ps: seq<Pool>, q: Queue, v: nat, n: nat)
    requires ps != [] && SinceThen(ps, q, v, n)
    ensures v in Line(ps[|ps| - 1], q)
  {
  }

  lemma HeadPrecedes(s: seq<nat>, v: nat)
    requires v in s
    ensures v == s[0] || Precedes(s, s[0], v)
  {
    var i :| 0 <= i < |s| && s[i] == v;
  }
}
