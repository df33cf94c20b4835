/** The worker threads, the queue they share and the loops they report to.  Each step
    is one critical section, or the work function running between two of them, so a
    run is any interleaving of the threads. */
module ThreadPool {
  import opened Basics

  /** What `w->work` points to: nothing any more, the submitted function, or
      uv__cancelled. */
  datatype Fn = Null | Task | Cancelled

  const UV_ECANCELED := -125
  const UV_EBUSY := -16

  /** Where an item is (history): in no queue, in the shared queue, taken by a worker
      or executed by it, in a loop's queue, in the list a running uv__work_done has
      split off, or between the two critical sections of a cancel. */
  datatype Place =
    Nowhere | Waiting | Taken(k: nat) | Executed(k: nat) | InDone(l: nat) | InDraining(l: nat) | InCancel(l: nat)

  /** A uv__work.  `selfLinked` is QUEUE_EMPTY(&w->wq); the rest after it is history
      since the last submit. */
  datatype Work = Work(fn: Fn, loop: nat, selfLinked: bool, place: Place, ran: nat, dones: nat, status: int)

  /** An entry of the shared queue. */
  datatype Entry = Job(w: nat) | ExitMessage

  /** A thread in worker(): waiting, with an item it took, with one it has run, or gone. */
  datatype Worker = Idle | Took(w: nat) | Ran(w: nat) | Gone

  /** A loop: its finished items, what is left of a running drain, and the item its
      thread is about to hand over as cancelled. */
  datatype Loop = Loop(done: seq<nat>, draining: seq<nat>, cancelling: Option<nat>)

  datatype Pool = Pool(wq: seq<Entry>, workers: seq<Worker>, loops: seq<Loop>, works: map<nat, Work>)

  function Init(workers: nat, loops: nat): Pool {
    Pool([], seq(workers, _ => Idle), seq(loops, _ => Loop([], [], None)), map[])
  }

  /** QUEUE_REMOVE of an item from whichever list links it. */
  function Without<T(==)>(s: seq<T>, x: T): seq<T> {
    if s == [] then [] else if s[0] == x then Without(s[1..], x) else [s[0]] + Without(s[1..], x)
  }

  datatype Step =
    | Submit(w: nat, loop: nat)      // uv__work_submit
    | PostExit                       // the destructor's post(&exit_message)
    | Take(k: nat)                   // worker, first critical section
    | Run(k: nat)                    // worker, w->work(w)
    | Report(k: nat)                 // worker, second critical section
    | Cancel(l: nat, w: nat)         // uv__work_cancel, first critical section
    | HandOver(l: nat)               // uv__work_cancel, second critical section
    | Split(l: nat)                  // uv__work_done, its critical section
    | Complete(l: nat)               // uv__work_done, one turn of its loop

  /** The record of an item; one never submitted counts as completed. */
  function Get(p: Pool, w: nat): Work {
    if w in p.works then p.works[w] else Work(Null, 0, false, Nowhere, 0, 1, 0)
  }

  /** Whether the item has been submitted and not yet completed. */
  predicate Active(p: Pool, w: nat) {
    Get(p, w).dones == 0
  }

  /** When a step can happen.  An item is not submitted again before it completed nor
      cancelled after it; cancel and drain run in the loop's own thread. */
  predicate Enabled(p: Pool, e: Step) {
    match e
    case Submit(w, loop) => !Active(p, w) && loop < |p.loops|
    case PostExit => ExitMessage !in p.wq
    case Take(k) => k < |p.workers| && p.workers[k] == Idle && p.wq != []
    case Run(k) => k < |p.workers| && p.workers[k].Took?
    case Report(k) => k < |p.workers| && p.workers[k].Ran?
    case Cancel(l, w) => l < |p.loops| && p.loops[l].cancelling.None? && Active(p, w) && Get(p, w).loop == l
    case HandOver(l) => l < |p.loops| && p.loops[l].cancelling.Some?
    case Split(l) => l < |p.loops| && p.loops[l].cancelling.None? && p.loops[l].draining == []
    case Complete(l) => l < |p.loops| && p.loops[l].cancelling.None? && p.loops[l].draining != []
  }

  function SetWork(p: Pool, w: nat, r: Work): Pool {
    p.(works := p.works[w := r])
  }

  function SetWorker(p: Pool, k: nat, s: Worker): Pool {
    if k < |p.workers| then p.(workers := p.workers[k := s]) else p
  }

  function SetLoop(p: Pool, l: nat, s: Loop): Pool {
    if l < |p.loops| then p.(loops := p.loops[l := s]) else p
  }

  /** uv_async_send aside, QUEUE_INSERT_TAIL into a loop's queue. */
  function AddDone(p: Pool, l: nat, w: nat): Pool {
    if l < |p.loops| then SetLoop(p, l, p.loops[l].(done := p.loops[l].done + [w])) else p
  }

  /** The test of uv__work_cancel: still in a queue, and the function neither finished
      nor taken. */
  predicate Cancellable(r: Work) {
    !r.selfLinked && r.fn != Null
  }

  function Apply(p: Pool, e: Step): Pool
    requires Enabled(p, e)
  {
    match e
    case Submit(w, loop) => ApplySubmit(p, w, loop)
    case PostExit => p.(wq := p.wq + [ExitMessage])
    case Take(k) => ApplyTake(p, k)
    case Run(k) => ApplyRun(p, k)
    case Report(k) => ApplyReport(p, k)
    case Cancel(l, w) => ApplyCancel(p, l, w)
    case HandOver(l) => ApplyHandOver(p, l)
    case Split(l) => ApplySplit(p, l)
    case Complete(l) => ApplyComplete(p, l)
  }

  function ApplySubmit(p: Pool, w: nat, loop: nat): Pool {
    SetWork(p, w, Work(Task, loop, false, Waiting, 0, 0, 0)).(wq := p.wq + [Job(w)])
  }

  /** A worker leaves the exit message in the queue for the next one. */
  function ApplyTake(p: Pool, k: nat): Pool
    requires Enabled(p, Take(k))
  {
    match p.wq[0]
    case ExitMessage => SetWorker(p, k, Gone)
    case Job(w) =>
      SetWork(SetWorker(p, k, Took(w)), w, Get(p, w).(selfLinked := true, place := Taken(k))).(wq := p.wq[1..])
  }

  function ApplyRun(p: Pool, k: nat): Pool
    requires Enabled(p, Run(k))
  {
    var w := p.workers[k].w;
    var r := Get(p, w);
    SetWork(SetWorker(p, k, Ran(w)), w, r.(place := Executed(k), ran := r.ran + if r.fn == Task then 1 else 0))
  }

  function ApplyReport(p: Pool, k: nat): Pool
    requires Enabled(p, Report(k))
  {
    var w := p.workers[k].w;
    var r := Get(p, w);
    AddDone(SetWork(SetWorker(p, k, Idle), w, r.(fn := Null, selfLinked := false, place := InDone(r.loop))), r.loop, w)
  }

  function ApplyCancel(p: Pool, l: nat, w: nat): Pool
    requires Enabled(p, Cancel(l, w))
  {
    if !Cancellable(Get(p, w)) then p
    else
      SetLoop(SetWork(p, w, Get(p, w).(place := InCancel(l))),
              l, Loop(Without(p.loops[l].done, w), Without(p.loops[l].draining, w), Some(w)))
      .(wq := Without(p.wq, Job(w)))
  }

  function ApplyHandOver(p: Pool, l: nat): Pool
    requires Enabled(p, HandOver(l))
  {
    var w := p.loops[l].cancelling.value;
    AddDone(SetLoop(SetWork(p, w, Get(p, w).(fn := Cancelled, selfLinked := false, place := InDone(l))),
                    l, p.loops[l].(cancelling := None)), l, w)
  }

  function ApplySplit(p: Pool, l: nat): Pool
    requires Enabled(p, Split(l))
  {
    SetLoop(p.(works := map w | w in p.works ::
                          if p.works[w].place == InDone(l) then p.works[w].(place := InDraining(l)) else p.works[w]),
            l, p.loops[l].(done := [], draining := p.loops[l].done))
  }

  function ApplyComplete(p: Pool, l: nat): Pool
    requires Enabled(p, Complete(l))
  {
    var w := p.loops[l].draining[0];
    var r := Get(p, w);
    SetLoop(SetWork(p, w, r.(place := Nowhere, dones := r.dones + 1,
                             status := if r.fn == Cancelled then UV_ECANCELED else 0)),
            l, p.loops[l].(draining := p.loops[l].draining[1..]))
  }

  /** What uv__work_cancel returns. */
  function CancelStatus(p: Pool, w: nat): int {
    if Cancellable(Get(p, w)) then 0 else UV_EBUSY
  }

  predicate Possible(p: Pool, run: seq<Step>)
    decreases run
  {
    run == [] || (Enabled(p, run[0]) && Possible(Apply(p, run[0]), run[1..]))
  }

  function After(p: Pool, run: seq<Step>): Pool
    requires Possible(p, run)
    decreases run
  {
    if run == [] then p else After(Apply(p, run[0]), run[1..])
  }

  // ---- The invariant

  ghost predicate Distinct<T>(s: seq<T>) {
    forall i, j :: 0 <= i < j < |s| ==> s[i] != s[j]
  }

  /** Whether the list, worker or cancel that a place names holds the item. */
  predicate Holds(p: Pool, place: Place, w: nat) {
    match place
    case Nowhere => false
    case Waiting => Job(w) in p.wq
    case Taken(k) => k < |p.workers| && p.workers[k] == Took(w)
    case Executed(k) => k < |p.workers| && p.workers[k] == Ran(w)
    case InDone(l) => l < |p.loops| && w in p.loops[l].done
    case InDraining(l) => l < |p.loops| && w in p.loops[l].draining
    case InCancel(l) => l < |p.loops| && p.loops[l].cancelling == Some(w)
  }

  /** The place recorded for an item is the one place that holds it. */
  ghost predicate PlacesOk(p: Pool) {
    forall place, w :: Holds(p, place, w) <==> place == Get(p, w).place && place != Nowhere
  }

  ghost predicate ListsOk(p: Pool) {
    && Distinct(p.wq)
    && forall l :: 0 <= l < |p.loops| ==> Distinct(p.loops[l].done) && Distinct(p.loops[l].draining)
  }

  /** What is known of an item from where it is. */
  ghost predicate WorkOk(r: Work, loops: nat) {
    && (r.place != Nowhere ==> r.loop < loops && r.dones == 0)
    && match r.place
       case Nowhere => r.dones == 1 && r.ran <= 1
       case Waiting => r.fn == Task && r.ran == 0 && !r.selfLinked
       case Taken(k) => r.fn == Task && r.ran == 0 && r.selfLinked
       case Executed(k) => r.fn == Task && r.ran == 1 && r.selfLinked
       case InDone(l) => Finished(r) && l == r.loop
       case InDraining(l) => Finished(r) && l == r.loop
       case InCancel(l) => r.fn != Null && r.ran == 0 && !r.selfLinked && l == r.loop
  }

  /** An item on its way to its done callback: it ran, or it was cancelled unrun. */
  ghost predicate Finished(r: Work) {
    !r.selfLinked && ((r.fn == Null && r.ran == 1) || (r.fn == Cancelled && r.ran == 0))
  }

  /** A completed item has the status that says whether it ran. */
  ghost predicate StatusOk(r: Work) {
    r.place == Nowhere ==> (r.status == UV_ECANCELED || r.status == 0) && (r.status == UV_ECANCELED <==> r.ran == 0)
  }

  ghost predicate WorksOk(p: Pool) {
    forall w :: w in p.works ==> WorkOk(p.works[w], |p.loops|) && StatusOk(p.works[w])
  }

  ghost predicate Inv(p: Pool) {
    PlacesOk(p) && ListsOk(p) && WorksOk(p)
  }

  // ---- Each step keeps it

  /** One item moves: nothing else changes hands. */
  ghost predicate Moves(p: Pool, q: Pool, w: nat, r: Work) {
    && q.works == p.works[w := r]
    && |q.loops| == |p.loops|
    && (forall place, x :: x != w ==> (Holds(q, place, x) <==> Holds(p, place, x)))
    && (r.place != Nowhere ==> Holds(q, r.place, w))
    && (r.place != Get(p, w).place ==> !Holds(q, Get(p, w).place, w))
    && (forall place :: place != r.place && Holds(q, place, w) ==> Holds(p, place, w))
  }

  lemma MoveKeeps(p: Pool, q: Pool, w: nat, r: Work)
    requires Inv(p) && Moves(p, q, w, r) && ListsOk(q)
    requires WorkOk(r, |p.loops|) && StatusOk(r)
    ensures Inv(q)
  {
    assert forall x :: !Holds(q, Nowhere, x);
    hide ListsOk, WorkOk, StatusOk, Holds;
    forall place, x
      ensures Holds(q, place, x) <==> place == Get(q, x).place && place != Nowhere
    {
      assert x != w ==> Get(q, x) == Get(p, x);
      assert Holds(p, place, x) <==> place == Get(p, x).place && place != Nowhere;
    }
  }

  lemma {:induction false} WithoutKeeps<T>(s: seq<T>, x: T)
    ensures forall y :: y in Without(s, x) <==> y in s && y != x
    ensures Distinct(s) ==> Distinct(Without(s, x))
  {
    if s != [] {
      WithoutKeeps(s[1..], x);
      assert Distinct(s) ==> Distinct(s[1..]) && s[0] !in s[1..];
    }
  }

  lemma DistinctAppend<T>(s: seq<T>, x: T)
    requires Distinct(s) && x !in s
    ensures Distinct(s + [x])
  {}

  lemma DistinctTail<T>(s: seq<T>)
    requires Distinct(s) && s != []
    ensures Distinct(s[1..]) && s[0] !in s[1..]
    ensures forall x :: x in s[1..] <==> x in s && x != s[0]
  {}

  lemma GetOk(p: Pool, w: nat)
    requires WorksOk(p)
    ensures WorkOk(Get(p, w), |p.loops|)
  {}

  lemma SubmitKeeps(p: Pool, w: nat, loop: nat)
    requires Inv(p) && Enabled(p, Submit(w, loop))
    ensures Inv(ApplySubmit(p, w, loop))
  {
    hide WorksOk;
    var q := ApplySubmit(p, w, loop);
    GetOk(p, w);
    assert forall place :: !Holds(p, place, w);
    assert !Holds(p, Waiting, w);
    DistinctAppend(p.wq, Job(w));
    MoveKeeps(p, q, w, q.works[w]);
  }

  lemma ExitKeeps(p: Pool)
    requires Inv(p) && Enabled(p, PostExit)
    ensures Inv(p.(wq := p.wq + [ExitMessage]))
  {
    hide WorkOk, StatusOk;
    var q := p.(wq := p.wq + [ExitMessage]);
    DistinctAppend(p.wq, ExitMessage);
    assert forall place, w :: Holds(q, place, w) <==> Holds(p, place, w);
  }

  lemma TakeKeeps(p: Pool, k: nat)
    requires Inv(p) && Enabled(p, Take(k))
    ensures Inv(ApplyTake(p, k))
  {
    var q := ApplyTake(p, k);
    match p.wq[0]
    case ExitMessage =>
      assert forall place, w :: Holds(q, place, w) <==> Holds(p, place, w);
    case Job(w) =>
      hide WorksOk;
      DistinctTail(p.wq);
      assert Holds(p, Waiting, w);
      GetOk(p, w);
      MoveKeeps(p, q, w, q.works[w]);
  }

  lemma RunKeeps(p: Pool, k: nat)
    requires Inv(p) && Enabled(p, Run(k))
    ensures Inv(ApplyRun(p, k))
  {
    hide WorksOk;
    var w := p.workers[k].w;
    var q := ApplyRun(p, k);
    assert Holds(p, Taken(k), w);
    GetOk(p, w);
    MoveKeeps(p, q, w, q.works[w]);
  }

  lemma ReportKeeps(p: Pool, k: nat)
    requires Inv(p) && Enabled(p, Report(k))
    ensures Inv(ApplyReport(p, k))
  {
    hide WorksOk;
    var w := p.workers[k].w;
    var q := ApplyReport(p, k);
    assert Holds(p, Executed(k), w);
    GetOk(p, w);
    var l := Get(p, w).loop;
    assert !Holds(p, InDone(l), w);
    DistinctAppend(p.loops[l].done, w);
    MoveKeeps(p, q, w, q.works[w]);
  }

  lemma CancelKeeps(p: Pool, l: nat, w: nat)
    requires Inv(p) && Enabled(p, Cancel(l, w))
    ensures Inv(ApplyCancel(p, l, w))
  {
    hide WorksOk, Without;
    var q := ApplyCancel(p, l, w);
    GetOk(p, w);
    if Cancellable(Get(p, w)) {
      WithoutKeeps(p.wq, Job(w));
      WithoutKeeps(p.loops[l].done, w);
      WithoutKeeps(p.loops[l].draining, w);
      MoveKeeps(p, q, w, q.works[w]);
    }
  }

  lemma HandOverKeeps(p: Pool, l: nat)
    requires Inv(p) && Enabled(p, HandOver(l))
    ensures Inv(ApplyHandOver(p, l))
  {
    hide WorksOk;
    var w := p.loops[l].cancelling.value;
    var q := ApplyHandOver(p, l);
    assert Holds(p, InCancel(l), w);
    GetOk(p, w);
    assert !Holds(p, InDone(l), w);
    DistinctAppend(p.loops[l].done, w);
    MoveKeeps(p, q, w, q.works[w]);
  }

  lemma CompleteKeeps(p: Pool, l: nat)
    requires Inv(p) && Enabled(p, Complete(l))
    ensures Inv(ApplyComplete(p, l))
  {
    hide WorksOk;
    var w := p.loops[l].draining[0];
    var q := ApplyComplete(p, l);
    assert Holds(p, InDraining(l), w);
    GetOk(p, w);
    DistinctTail(p.loops[l].draining);
    MoveKeeps(p, q, w, q.works[w]);
  }

  lemma SplitKeeps(p: Pool, l: nat)
    requires Inv(p) && Enabled(p, Split(l))
    ensures Inv(ApplySplit(p, l))
  {
    var q := ApplySplit(p, l);
    assert forall w :: !Holds(p, InDraining(l), w);
    forall place, w
      ensures Holds(q, place, w) <==> place == Get(q, w).place && place != Nowhere
    {
      assert Holds(p, place, w) <==> place == Get(p, w).place && place != Nowhere;
      assert Holds(p, InDone(l), w) <==> Get(p, w).place == InDone(l);
    }
  }

  lemma StepKeeps(p: Pool, e: Step)
    requires Inv(p) && Enabled(p, e)
    ensures Inv(Apply(p, e))
  {
    hide Inv, ApplySubmit, ApplyTake, ApplyRun, ApplyReport, ApplyCancel, ApplyHandOver, ApplySplit, ApplyComplete;
    match e
    case Submit(w, loop) => SubmitKeeps(p, w, loop);
    case PostExit => ExitKeeps(p);
    case Take(k) => TakeKeeps(p, k);
    case Run(k) => RunKeeps(p, k);
    case Report(k) => ReportKeeps(p, k);
    case Cancel(l, w) => CancelKeeps(p, l, w);
    case HandOver(l) => HandOverKeeps(p, l);
    case Split(l) => SplitKeeps(p, l);
    case Complete(l) => CompleteKeeps(p, l);
  }

  lemma InitKeeps(workers: nat, loops: nat)
    ensures Inv(Init(workers, loops))
  {}

  lemma {:induction false} RunKeepsInv(p: Pool, run: seq<Step>)
    requires Inv(p) && Possible(p, run)
    ensures Inv(After(p, run))
    decreases run
  {
    hide Inv, Apply, Enabled;
    if run != [] {
      StepKeeps(p, run[0]);
      RunKeepsInv(Apply(p, run[0]), run[1..]);
    }
  }

  // ---- Main results, for every interleaving

  /** An item between submit and completion is in exactly one list, worker or cancel,
      and once only there; any other item is in none. */
  lemma InExactlyOnePlace(workers: nat, loops: nat, run: seq<Step>, w: nat)
    requires Possible(Init(workers, loops), run)
    ensures var p := After(Init(workers, loops), run);
            && Distinct(p.wq)
            && (forall l :: 0 <= l < |p.loops| ==> Distinct(p.loops[l].done) && Distinct(p.loops[l].draining))
            && (Active(p, w) <==> exists place :: Holds(p, place, w))
            && (forall a, b :: Holds(p, a, w) && Holds(p, b, w) ==> a == b)
  {
    InitKeeps(workers, loops);
    RunKeepsInv(Init(workers, loops), run);
    hide After, Possible, Holds, Enabled;
    var p := After(Init(workers, loops), run);
    GetOk(p, w);
    if Active(p, w) {
      assert Holds(p, Get(p, w).place, w);
    }
  }

  /** Since its submit an item's work function ran at most once and its done callback
      was called at most once; a worker about to run an item runs the submitted
      function, never uv__cancelled and never nothing; and a completed item reports
      UV_ECANCELED exactly when its work never ran. */
  lemma RunsAndCompletesOnce(workers: nat, loops: nat, run: seq<Step>, w: nat)
    requires Possible(Init(workers, loops), run)
    ensures var p := After(Init(workers, loops), run);
            w in p.works ==>
              && p.works[w].ran <= 1 && p.works[w].dones <= 1
              && (forall k :: Holds(p, Taken(k), w) ==> p.works[w].fn == Task)
              && (p.works[w].dones == 1 ==>
                    && (p.works[w].status == -125 || p.works[w].status == 0)
                    && (p.works[w].status == -125 <==> p.works[w].ran == 0))
  {
    InitKeeps(workers, loops);
    RunKeepsInv(Init(workers, loops), run);
    hide After, Possible, Holds, Enabled;
    var p := After(Init(workers, loops), run);
    if w in p.works {
      assert WorkOk(p.works[w], |p.loops|) && StatusOk(p.works[w]);
      forall k | Holds(p, Taken(k), w)
        ensures p.works[w].fn == Task
      {
        assert Get(p, w).place == Taken(k);
      }
    }
  }

  /** uv__work_cancel succeeds exactly while no worker has taken the item. */
  lemma CancelSucceedsIff(workers: nat, loops: nat, run: seq<Step>, w: nat)
    requires Possible(Init(workers, loops), run) && Active(After(Init(workers, loops), run), w)
    ensures var p := After(Init(workers, loops), run);
            && (CancelStatus(p, w) == 0 <==> Get(p, w).ran == 0 && !(exists k :: Holds(p, Taken(k), w)))
            && (CancelStatus(p, w) == 0 || CancelStatus(p, w) == -16)
  {
    InitKeeps(workers, loops);
    RunKeepsInv(Init(workers, loops), run);
    hide After, Possible, Holds, Enabled;
    var p := After(Init(workers, loops), run);
    GetOk(p, w);
    var place := Get(p, w).place;
    if place.Taken? {
      assert Holds(p, Taken(place.k), w);
    }
    forall k | Holds(p, Taken(k), w)
      ensures place == Taken(k)
    {}
  }

  /** An item some cancel has succeeded on. */
  ghost predicate Doomed(r: Work) {
    r.dones == 0 && (r.place.InCancel? || r.fn == Cancelled)
  }

  /** No interleaving can run a cancelled item any more: it stays cancelled until it
      completes with UV_ECANCELED. */
  lemma CancelledNeverRuns(p: Pool, e: Step, w: nat)
    requires Inv(p) && Enabled(p, e) && Doomed(Get(p, w))
    ensures var r := Get(Apply(p, e), w);
            r.ran == 0 && (Doomed(r) || (r.dones == 1 && r.status == UV_ECANCELED))
  {
    GetOk(p, w);
    match e
    case Take(k) => HeldAt(p, Waiting, if p.wq[0].Job? then p.wq[0].w else w + 1);
    case Run(k) => HeldAt(p, Taken(k), p.workers[k].w);
    case Report(k) => HeldAt(p, Executed(k), p.workers[k].w);
    case HandOver(l) => HeldAt(p, InCancel(l), p.loops[l].cancelling.value);
    case Complete(l) => HeldAt(p, InDraining(l), p.loops[l].draining[0]);
    case _ =>
  }

  lemma HeldAt(p: Pool, place: Place, w: nat)
    requires PlacesOk(p)
    ensures Holds(p, place, w) ==> Get(p, w).place == place
  {}
}
