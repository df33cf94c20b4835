/** The critical sections of the thread pool as methods on shared state, each shown to
    be the step of ThreadPool it stands for. */
module ThreadPoolCode {
  import opened Basics
  import opened ThreadPool

  /** The turns of uv__work_done's loop, when nothing comes between them. */
  function Drained(p: Pool, l: nat): Pool
    requires l < |p.loops| && p.loops[l].cancelling.None?
    decreases if l < |p.loops| then |p.loops[l].draining| else 0
  {
    if p.loops[l].draining == [] then p else Drained(ApplyComplete(p, l), l)
  }

  class Shared {
    var wq: seq<Entry>
    var workers: seq<Worker>
    var loops: seq<Loop>
    var works: map<nat, Work>

    ghost function Model(): Pool
      reads this
    {
      Pool(wq, workers, loops, works)
    }

    constructor (threads: nat, n: nat)
      ensures Model() == Init(threads, n)
    {
      wq, works := [], map[];
      workers := seq(threads, _ => Idle);
      loops := seq(n, _ => Loop([], [], None));
    }

    /** post. */
    method Post(q: Entry)
      modifies this`wq
      ensures wq == old(wq) + [q]
    {
      wq := wq + [q];
    }

    /** uv__work_submit. */
    method WorkSubmit(w: nat, loop: nat)
      requires Enabled(Model(), Submit(w, loop))
      modifies this
      ensures Model() == Apply(old(Model()), Submit(w, loop))
    {
      works := works[w := Work(Task, loop, false, Waiting, 0, 0, 0)];
      Post(Job(w));
    }

    /** The worker's first critical section, once the queue is not empty. */
    method WorkerTake(k: nat) returns (exit: bool)
      requires Enabled(Model(), Take(k))
      modifies this
      ensures Model() == Apply(old(Model()), Take(k))
      ensures exit == (old(wq)[0] == ExitMessage)
    {
      var q := wq[0];
      match q
      case ExitMessage =>
        workers := workers[k := Gone];
        exit := true;
      case Job(w) =>
        works := works[w := Get(Pool(wq, workers, loops, works), w).(selfLinked := true, place := Taken(k))];
        wq := wq[1..];
        workers := workers[k := Took(w)];
        exit := false;
    }

    /** w->work(w), outside any mutex. */
    method WorkerRun(k: nat)
      requires Enabled(Model(), Run(k))
      modifies this
      ensures Model() == Apply(old(Model()), Run(k))
    {
      var w := workers[k].w;
      var r := Get(Pool(wq, workers, loops, works), w);
      workers := workers[k := Ran(w)];
      works := works[w := r.(place := Executed(k), ran := r.ran + if r.fn == Task then 1 else 0)];
    }

    /** The worker's second critical section. */
    method WorkerReport(k: nat)
      requires Enabled(Model(), Report(k))
      modifies this
      ensures Model() == Apply(old(Model()), Report(k))
    {
      var w := workers[k].w;
      var r := Get(Pool(wq, workers, loops, works), w);
      workers := workers[k := Idle];
      works := works[w := r.(fn := Null, selfLinked := false, place := InDone(r.loop))];
      if r.loop < |loops| {
        loops := loops[r.loop := loops[r.loop].(done := loops[r.loop].done + [w])];
      }
    }

    /** uv__work_cancel: the test and the removal under both mutexes, then, if they
        succeeded, the item is handed to its loop as cancelled. */
    method WorkCancel(l: nat, w: nat) returns (rc: int)
      requires Enabled(Model(), Cancel(l, w))
      modifies this
      ensures rc == CancelStatus(old(Model()), w)
      ensures Model() == if rc == 0 then ApplyHandOver(ApplyCancel(old(Model()), l, w), l) else old(Model())
    {
      var r := Get(Pool(wq, workers, loops, works), w);
      var cancelled := !r.selfLinked && r.fn != Null;
      if !cancelled {
        return UV_EBUSY;
      }
      wq := Without(wq, Job(w));
      loops := loops[l := Loop(Without(loops[l].done, w), Without(loops[l].draining, w), Some(w))];
      works := works[w := r.(place := InCancel(l))];
      assert Model() == ApplyCancel(old(Model()), l, w);

      works := works[w := r.(fn := Cancelled, selfLinked := false, place := InDone(l))];
      loops := loops[l := loops[l].(done := loops[l].done + [w], cancelling := None)];
      rc := 0;
    }

    /** uv__work_done: QUEUE_SPLIT, then one done callback after the other. */
    method WorkDone(l: nat)
      requires Enabled(Model(), Split(l))
      modifies this
      ensures Model() == Drained(Apply(old(Model()), Split(l)), l)
    {
      var moved := loops[l].done;
      works := map w | w in works :: if works[w].place == InDone(l) then works[w].(place := InDraining(l))
                                     else works[w];
      loops := loops[l := loops[l].(done := [], draining := moved)];
      assert Model() == Apply(old(Model()), Split(l));
      while loops[l].draining != []
        invariant l < |loops| && loops[l].cancelling.None?
        invariant Drained(Model(), l) == Drained(Apply(old(Model()), Split(l)), l)
        decreases |loops[l].draining|
      {
        var w := loops[l].draining[0];
        var r := Get(Pool(wq, workers, loops, works), w);
        var err := if r.fn == Cancelled then UV_ECANCELED else 0;
        loops := loops[l := loops[l].(draining := loops[l].draining[1..])];
        works := works[w := r.(place := Nowhere, dones := r.dones + 1, status := err)];
      }
    }
  }
}
