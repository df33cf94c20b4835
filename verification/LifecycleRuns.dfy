/** What holds in every state a run can reach. */
module LifecycleRuns {
  import opened Basics
  import opened Lifecycle
  import opened LifecycleBooks

  // ---- What a step does to the queues

  ghost predicate AllInternal(items: seq<Item>) {
    forall i :: 0 <= i < |items| ==> items[i].kind.Internal?
  }

  /** Finishing items changes nothing of the transport but slots and history. */
  lemma {:induction false} FinishAllKeeps(s: Sys, items: seq<Item>, rc: int)
    ensures var r := FinishAll(s, items, rc);
            r.t == s.t.(busy := r.t.busy, live := r.t.live)
    decreases items
  {
    if items != [] {
      FinishAllKeeps(Finish(s, items[0], rc), items[1..], rc);
    }
  }

  function Resps(items: seq<Item>): (r: seq<Item>)
    ensures forall i :: 0 <= i < |r| ==> r[i].kind.Resp?
    ensures AllInternal(items) ==> r == []
  {
    if items == [] then []
    else (if items[0].kind.Resp? then [items[0]] else []) + Resps(items[1..])
  }

  /** After a write exactly its request items, in order, wait for responses. */
  lemma {:induction false} WrittenKeeps(s: Sys, items: seq<Item>, status: int)
    ensures var r := Written(s, items, status);
            r.t == s.t.(busy := r.t.busy, live := r.t.live,
                        respPending := s.t.respPending + if status == RC_OK then Resps(items) else [])
    decreases items
  {
    if items == [] {
      assert s.t.respPending + [] == s.t.respPending;
    } else if status == RC_OK && items[0].kind.Resp? {
      var u := s.t.(respPending := s.t.respPending + [items[0]]);
      WrittenKeeps(s.(t := u), items[1..], status);
      assert s.t.respPending + [items[0]] + Resps(items[1..]) == s.t.respPending + ([items[0]] + Resps(items[1..]));
    } else {
      WrittenKeeps(Finish(s, items[0], status), items[1..], status);
      if status == RC_OK {
        assert [] + Resps(items[1..]) == Resps(items[1..]);
      }
    }
  }

  lemma {:induction false} SelectConcat(a: seq<Item>, b: seq<Item>, now: int)
    ensures Select(a + b, now, false) == Select(a, now, false) + Select(b, now, false)
  {
    if a == [] {
      assert a + b == b;
    } else {
      assert (a + b)[0] == a[0] && (a + b)[1..] == a[1..] + b;
      SelectConcat(a[1..], b, now);
    }
  }

  /** tcp__check_queue_timeout is a filter: it keeps the order, drops nothing that
      has not expired and keeps nothing that has. */
  lemma {:induction false} SelectFilters(items: seq<Item>, now: int, expired: bool)
    ensures forall wi :: wi in Select(items, now, expired) <==> wi in items && Expired(wi, now) == expired
    ensures multiset(Select(items, now, expired)) <= multiset(items)
  {
    if items != [] {
      SelectFilters(items[1..], now, expired);
      assert items == [items[0]] + items[1..];
    }
  }

  lemma ResetEmpties(s: Sys)
    ensures var t := Reset(s).t;
            t == s.t.(conn := NotConn, connPending := [], writeWait := [], writing := [], respPending := [], wire := [],
                      busy := t.busy, live := t.live)
  {
    hide FinishAll;
    var all := s.t.writing + s.t.connPending + s.t.writeWait + s.t.respPending;
    FinishAllKeeps(s.(t := s.t.(conn := NotConn, connPending := [], writeWait := [], writing := [], respPending := [],
                                wire := [])),
                   all, RC_RESET);
  }

  lemma ReconnEmpties(s: Sys, again: bool)
    ensures var t := Reconn(s, again).t;
            t == s.t.(conn := if again then Connecting else NotConn, connPending := [], writeWait := [], writing := [],
                      respPending := [], wire := [], busy := t.busy, live := t.live)
  {
    hide Reset;
    ResetEmpties(s);
  }

  /** The queues when tcp__write_async_cb has moved the pending items. */
  function Merged(t: Trans): Trans {
    if t.conn == Done then t.(writeWait := t.writeWait + t.connPending, connPending := []) else t
  }

  lemma WriteAsyncMoves(s: Sys, ret: int)
    ensures var t, m := WriteAsync(s, ret).t, Merged(s.t);
            t == if s.t.conn == NotConn || s.t.isWriting then s.t
                 else if m.writeWait == [] then m
                 else if ret == 0 then
                   m.(writing := m.writing + m.writeWait, writeWait := [], isWriting := true,
                      wire := m.wire + m.writeWait)
                 else m.(writing := [], writeWait := [], busy := t.busy, live := t.live)
  {
    hide FinishAll;
    var m := Merged(s.t);
    FinishAllKeeps(s.(t := m.(writing := [], writeWait := [])), m.writing + m.writeWait, ret);
  }

  lemma WriteDoneMoves(s: Sys, good: bool)
    ensures var t := WriteDone(s, good).t;
            t == s.t.(isWriting := false, writing := [], busy := t.busy, live := t.live,
                      respPending := s.t.respPending + if good then Resps(s.t.writing) else [])
  {
    hide Written, Resps;
    WrittenKeeps(s.(t := s.t.(isWriting := false, writing := [])), s.t.writing, if good then RC_OK else RC_ERROR);
  }

  lemma SweepMoves(s: Sys, now: int)
    ensures var t := CheckTimeout(s, now).t;
            t == s.t.(connPending := Select(s.t.connPending, now, false),
                      writeWait := Select(s.t.writeWait, now, false),
                      respPending := Select(s.t.respPending, now, false), busy := t.busy, live := t.live)
  {
    hide FinishAll, Select;
    var t1 := s.t.(connPending := Select(s.t.connPending, now, false));
    FinishAllKeeps(s.(t := t1), Select(s.t.connPending, now, true), RC_TIMEOUT);
    var s1 := FinishAll(s.(t := t1), Select(s.t.connPending, now, true), RC_TIMEOUT);
    var t2 := s1.t.(writeWait := Select(s1.t.writeWait, now, false));
    FinishAllKeeps(s1.(t := t2), Select(s1.t.writeWait, now, true), RC_TIMEOUT);
    var s2 := FinishAll(s1.(t := t2), Select(s1.t.writeWait, now, true), RC_TIMEOUT);
    var t3 := s2.t.(respPending := Select(s2.t.respPending, now, false));
    FinishAllKeeps(s2.(t := t3), Select(s2.t.respPending, now, true), RC_TIMEOUT);
  }

  // ---- Every step keeps the books

  /** What waits for a response is a request. */
  ghost predicate OnlyRequests(t: Trans) {
    forall wi <- t.respPending :: wi.kind.Resp?
  }

  lemma StepKeepsRequests(s: Sys, e: Step)
    requires OnlyRequests(s.t)
    ensures OnlyRequests(Apply(s, e).t)
  {
    hide WriteAsync, WriteDone, CheckTimeout, Report, Reset, Poll, FirstIdle, Resps;
    match e
    case DoConnAsync(started, again) => ResetEmpties(s.(t := s.t.(conn := Connecting)));
    case DoConnDone(connected, reading, again, now) =>
      ResetEmpties(s.(t := s.t.(isConnecting := false)));
      ResetEmpties(s.(t := s.t.(isConnecting := false, conn := Handshaking)));
    case DoHandshakeResp(accepted, now) => ResetEmpties(s);
    case DoWriteAsync(ret) => WriteAsyncMoves(s, ret);
    case DoWriteDone(good) => WriteDoneMoves(s, good);
    case DoCheckTimeout(now) => SweepKeepsRequests(s, now);
    case DoReset => ResetEmpties(s);
    case DoReconn(again) => ResetEmpties(s);
    case _ =>
  }

  lemma SweepKeepsRequests(s: Sys, now: int)
    requires OnlyRequests(s.t)
    ensures OnlyRequests(CheckTimeout(s, now).t)
  {
    SweepMoves(s, now);
    SelectFilters(s.t.respPending, now, false);
  }

  lemma StepKeepsBooks(s: Sys, e: Step)
    requires Books(s, []) && OnlyRequests(s.t)
    ensures Books(Apply(s, e), [])
  {
    hide Books, Total, Request, NotifyCall, ConnDone, HandshakeResp, WriteAsync, WriteDone, CheckTimeout, Response;
    hide Reset, Reconn, Poll, AddInternal;
    match e
    case DoRequest(encoded, timeout, now) => RequestBalances(s, encoded, timeout, now);
    case DoNotify(encoded, timeout, now) => NotifyBalances(s, encoded, timeout, now);
    case DoPoll => if s.c.polling { PollBalances(s); }
    case DoConnAsync(started, again) =>
      Rearranged(s, [], s.t.(conn := Connecting), []);
      Rearranged(s, [], s.t.(conn := Connecting, isConnecting := true, wire := []), []);
      ReconnBalances(s.(t := s.t.(conn := Connecting)), again);
    case DoConnDone(connected, reading, again, now) => ConnDoneBalances(s, connected, reading, again, now);
    case DoHandshakeResp(accepted, now) => HandshakeRespBalances(s, accepted, now);
    case DoHeartbeatTimer(now) => AddInternalBalances(s, Heartbeat, now);
    case DoWriteAsync(ret) => WriteAsyncBalances(s, ret);
    case DoWriteDone(good) => WriteDoneBalances(s, good);
    case DoCheckTimeout(now) => CheckTimeoutBalances(s, now);
    case DoResponse(reqId) => ResponseBalances(s, reqId);
    case DoReset => ResetBalances(s);
    case DoReconn(again) => ReconnBalances(s, again);
  }

  lemma ConnDoneBalances(s: Sys, connected: bool, reading: bool, again: bool, now: int)
    requires Books(s, [])
    ensures Books(ConnDone(s, connected, reading, again, now), [])
  {
    hide Books, Reconn, AddInternal;
    var t := s.t.(isConnecting := false);
    Rearranged(s, [], t, []);
    Rearranged(s, [], t.(conn := Handshaking), []);
    if !connected {
      ReconnBalances(s.(t := t), again);
    } else if !reading {
      ReconnBalances(s.(t := t.(conn := Handshaking)), again);
    } else {
      AddInternalBalances(s.(t := t.(conn := Handshaking)), Handshake, now);
    }
  }

  lemma HandshakeRespBalances(s: Sys, accepted: bool, now: int)
    requires Books(s, [])
    ensures Books(HandshakeResp(s, accepted, now), [])
  {
    hide Books, Reset, AddInternal;
    if accepted {
      AddInternalBalances(s, HandshakeAck, now);
      var t := AddInternal(s.t, HandshakeAck, now);
      Rearranged(s.(t := t), [], t.(conn := Done), []);
    } else {
      ResetBalances(s);
    }
  }

  // ---- Runs

  function Init(polling: bool): Sys {
    Sys(InitClient(polling), InitTrans())
  }

  lemma InitKeeps(polling: bool)
    ensures Books(Init(polling), []) && OnlyRequests(Init(polling).t)
  {
    var t := InitTrans();
    assert BusySlots(t.busy) == {};
    assert Linked(t) == [];
  }

  lemma {:induction false} RunKeepsBooks(s: Sys, run: seq<Step>)
    requires Books(s, []) && OnlyRequests(s.t)
    ensures Books(After(s, run), [])
    decreases run
  {
    hide Books, Apply, OnlyRequests;
    if run != [] {
      StepKeepsBooks(s, run[0]);
      StepKeepsRequests(s, run[0]);
      RunKeepsBooks(Apply(s, run[0]), run[1..]);
    }
  }

  // ---- Main results

  /** The books balance after any steps at all, in any order. */
  lemma Balanced(polling: bool, run: seq<Step>)
    ensures Books(After(Init(polling), run), [])
  {
    InitKeeps(polling);
    RunKeepsBooks(Init(polling), run);
  }

  lemma {:induction false} TotalCounts<A, T>(xs: seq<A>, i: nat, f: A -> multiset<T>)
    requires i < |xs|
    ensures f(xs[i]) <= Total(xs, f)
  {
    if i > 0 {
      TotalCounts(xs[1..], i - 1, f);
    }
  }

  lemma {:induction false} TotalCountsTwo<A, T>(xs: seq<A>, i: nat, j: nat, f: A -> multiset<T>)
    requires i < j < |xs|
    ensures f(xs[i]) + f(xs[j]) <= Total(xs, f)
  {
    if i > 0 {
      TotalCountsTwo(xs[1..], i - 1, j - 1, f);
    } else {
      TotalCounts(xs[1..], j - 1, f);
    }
  }

  lemma {:induction false} TotalFinds<A, T>(xs: seq<A>, x: T, f: A -> multiset<T>) returns (i: nat)
    requires x in Total(xs, f)
    ensures i < |xs| && x in f(xs[i])
  {
    if x in f(xs[0]) {
      i := 0;
    } else {
      i := TotalFinds(xs[1..], x, f);
      i := i + 1;
    }
  }

  lemma {:induction false} AcceptedOnce(n: nat, k: nat)
    ensures AcceptedTokens(n)[k] == if k < n then 1 else 0
  {
    if n > 0 {
      AcceptedOnce(n - 1, k);
    }
  }

  /** After any steps at all, every callback that has run is that of an accepted call,
      and no other one is. */
  lemma CalledAtMostOnce(polling: bool, run: seq<Step>, i: nat)
    requires i < |After(Init(polling), run).c.called|
    ensures var c := After(Init(polling), run).c;
            && c.called[i].token < c.accepted
            && forall j :: 0 <= j < |c.called| && j != i ==> c.called[j].token != c.called[i].token
  {
    Balanced(polling, run);
    hide Total, AcceptedTokens, After, ItemsBalance, AnswersBalance;
    var c := After(Init(polling), run).c;
    var k := c.called[i].token;
    TotalCounts(c.called, i, CallToken);
    AcceptedOnce(c.accepted, k);
    assert AllTokens(c)[k] <= 1;
    assert Total(c.called, CallToken)[k] <= AllTokens(c)[k];
    forall j | 0 <= j < |c.called| && j != i
      ensures c.called[j].token != k
    {
      if i < j {
        TotalCountsTwo(c.called, i, j, CallToken);
      } else {
        TotalCountsTwo(c.called, j, i, CallToken);
      }
    }
  }

  /** The state after the transport was reset and, when polling, the next poll. */
  function Settled(s: Sys): Sys {
    var r := Reset(s);
    if r.c.polling then r.(c := Poll(r.c)) else r
  }

  /** After a reset (and the next poll in polling mode) the client's queues are empty
      and every accepted call has had its callback run exactly once. */
  lemma ResetAnswersAll(polling: bool, run: seq<Step>)
    ensures var s := After(Init(polling), run);
            var c := Settled(s).c;
            && c.requests == [] && c.notifies == [] && c.events == []
            && c.accepted == s.c.accepted
            && (forall k: nat :: Total(c.called, CallToken)[k] == if k < c.accepted then 1 else 0)
  {
    Balanced(polling, run);
    hide After, Reset;
    var s := After(Init(polling), run);
    ResetBalances(s);
    ResetEmpties(s);
    ResetAccepts(s);
    var r := Reset(s);
    if r.c.polling {
      PollBalances(r);
      PollAccepts(r.c);
    }
    SettledEmpty(Settled(s));
  }

  lemma ResetAccepts(s: Sys)
    ensures Reset(s).c.accepted == s.c.accepted
  {
    FinishAllAccepts(s.(t := s.t.(conn := NotConn, connPending := [], writeWait := [], writing := [], respPending := [],
                                  wire := [])),
                     s.t.writing + s.t.connPending + s.t.writeWait + s.t.respPending, RC_RESET);
  }

  lemma {:induction false} FinishAllAccepts(s: Sys, items: seq<Item>, rc: int)
    ensures FinishAll(s, items, rc).c.accepted == s.c.accepted
    decreases items
  {
    if items != [] {
      FinishAllAccepts(Finish(s, items[0], rc), items[1..], rc);
    }
  }

  lemma {:induction false} PollAccepts(c: Client)
    ensures Poll(c).accepted == c.accepted
    decreases |c.events|
  {
    if c.events != [] {
      PollAccepts(Deliver(c.(events := c.events[1..]), c.events[0].key, c.events[0].rc));
    }
  }

  lemma FirstWaits(ps: seq<Pending>)
    ensures ps != [] ==> ps[0].key in Total(ps, PendingKey)
  {}

  lemma SettledEmpty(s: Sys)
    requires Books(s, []) && Linked(s.t) == [] && s.c.events == []
    ensures s.c.requests == [] && s.c.notifies == []
    ensures forall k: nat :: Total(s.c.called, CallToken)[k] == if k < s.c.accepted then 1 else 0
  {
    assert Total<Item, Key>([], Owed) == multiset{} && Total<Event, Key>([], EventKey) == multiset{};
    assert Total<Pending, nat>([], PendingToken) == multiset{};
    FirstWaits(s.c.requests);
    FirstWaits(s.c.notifies);
    hide Total, AcceptedTokens;
    assert AllWaiting(s.c) == multiset{};
    assert AllTokens(s.c) == Total(s.c.called, CallToken);
    forall k: nat
      ensures Total(s.c.called, CallToken)[k] == if k < s.c.accepted then 1 else 0
    {
      AcceptedOnce(s.c.accepted, k);
    }
  }

  /** A multiset sum that is a set: no two elements share a member, and the members
      are those of the set. */
  lemma SharesNothing<A, T>(xs: seq<A>, f: A -> multiset<T>, s: set<T>, i: nat, j: nat, x: T)
    requires Total(xs, f) == multiset(s) && i < j < |xs| && x in f(xs[i])
    ensures x !in f(xs[j])
  {
    TotalCountsTwo(xs, i, j, f);
    hide Total;
    assert multiset(s)[x] <= 1;
    assert (f(xs[i]) + f(xs[j]))[x] <= multiset(s)[x];
  }

  lemma InSetIff<A, T>(xs: seq<A>, f: A -> multiset<T>, s: set<T>, x: T)
    requires Total(xs, f) == multiset(s)
    ensures x in s <==> exists i :: 0 <= i < |xs| && x in f(xs[i])
  {
    if x in s {
      var i := TotalFinds(xs, x, f);
    }
    forall i | 0 <= i < |xs| && x in f(xs[i])
      ensures x in s
    {
      TotalCounts(xs, i, f);
    }
  }

  lemma LinkedAreLive(t: Trans)
    requires ItemsBalance(t, [])
    ensures Total(Linked(t), IdOf) == multiset(t.live)
    ensures Total(Linked(t), SlotOf) == multiset(BusySlots(t.busy)) && |t.busy| == SLOTS
  {
    assert Total<Item, nat>([], IdOf) == multiset{} && Total<Item, nat>([], SlotOf) == multiset{};
  }

  /** After any steps the four queues hold the live items, each once. */
  lemma ItemsLinkedOnce(polling: bool, run: seq<Step>)
    ensures var t := After(Init(polling), run).t;
            var all := Linked(t);
            && (forall i, j :: 0 <= i < j < |all| ==> all[i].id != all[j].id)
            && (forall id :: id in t.live <==> exists i :: 0 <= i < |all| && all[i].id == id)
  {
    Balanced(polling, run);
    hide After, AnswersBalance, CallsBalance, ItemsBalance, Linked, Total;
    var t := After(Init(polling), run).t;
    var all := Linked(t);
    LinkedAreLive(t);
    forall i, j | 0 <= i < j < |all|
      ensures all[i].id != all[j].id
    {
      SharesNothing(all, IdOf, t.live, i, j, all[i].id);
    }
    forall id
      ensures id in t.live <==> exists i :: 0 <= i < |all| && all[i].id == id
    {
      InSetIff(all, IdOf, t.live, id);
      assert forall i :: 0 <= i < |all| ==> (id in IdOf(all[i]) <==> all[i].id == id);
    }
  }

  /** After any steps a preallocated slot is busy exactly when a linked item
      uses it, and no two linked items share one. */
  lemma SlotBusyIffLinked(polling: bool, run: seq<Step>)
    ensures var t := After(Init(polling), run).t;
            var all := Linked(t);
            && |t.busy| == 9
            && (forall i, j :: 0 <= i < j < |all| && all[i].slot.Some? ==> all[i].slot != all[j].slot)
            && (forall k :: 0 <= k < 9 ==> (t.busy[k] <==> exists i :: 0 <= i < |all| && all[i].slot == Some(k)))
  {
    Balanced(polling, run);
    hide After, AnswersBalance, CallsBalance, ItemsBalance, Linked, Total;
    var t := After(Init(polling), run).t;
    var all := Linked(t);
    LinkedAreLive(t);
    SlotsNotShared(t, all);
    SlotsBusyWhenUsed(t, all);
  }

  lemma SlotsNotShared(t: Trans, all: seq<Item>)
    requires Total(all, SlotOf) == multiset(BusySlots(t.busy))
    ensures forall i, j :: 0 <= i < j < |all| && all[i].slot.Some? ==> all[i].slot != all[j].slot
  {
    hide Total;
    forall i, j | 0 <= i < j < |all| && all[i].slot.Some?
      ensures all[i].slot != all[j].slot
    {
      SharesNothing(all, SlotOf, BusySlots(t.busy), i, j, all[i].slot.value);
    }
  }

  lemma SlotsBusyWhenUsed(t: Trans, all: seq<Item>)
    requires Total(all, SlotOf) == multiset(BusySlots(t.busy))
    ensures forall k :: 0 <= k < |t.busy| ==> (t.busy[k] <==> exists i :: 0 <= i < |all| && all[i].slot == Some(k))
  {
    hide Total;
    forall k: nat | 0 <= k < |t.busy|
      ensures t.busy[k] <==> exists i :: 0 <= i < |all| && all[i].slot == Some(k)
    {
      InSetIff(all, SlotOf, BusySlots(t.busy), k);
      assert k in BusySlots(t.busy) <==> t.busy[k];
      assert forall i :: 0 <= i < |all| ==> (k in SlotOf(all[i]) <==> all[i].slot == Some(k));
    }
  }

  /** While a write is under way nothing joins its batch: a step leaves it as it is or
      empties it, so the completion acknowledges items of its own write only. */
  lemma BatchIsSealed(s: Sys, e: Step)
    requires s.t.isWriting
    ensures Apply(s, e).t.writing == s.t.writing || Apply(s, e).t.writing == []
  {
    hide WriteAsync, WriteDone, CheckTimeout, Report, Reset, Poll, FirstIdle, Resps, Select;
    match e
    case DoReset => ResetEmpties(s);
    case DoReconn(again) => ResetEmpties(s);
    case DoConnAsync(started, again) => ResetEmpties(s.(t := s.t.(conn := Connecting)));
    case DoConnDone(connected, reading, again, now) =>
      ResetEmpties(s.(t := s.t.(isConnecting := false)));
      ResetEmpties(s.(t := s.t.(isConnecting := false, conn := Handshaking)));
    case DoHandshakeResp(accepted, now) => ResetEmpties(s);
    case DoWriteAsync(ret) => WriteAsyncMoves(s, ret);
    case DoWriteDone(good) => WriteDoneMoves(s, good);
    case DoCheckTimeout(now) => SweepMoves(s, now);
    case _ =>
  }

  /** A step that starts a write which uv_write accepts. */
  predicate StartsWrite(s: Sys, e: Step) {
    && e.DoWriteAsync? && e.ret == 0
    && s.t.conn != NotConn && !s.t.isWriting && Merged(s.t).writeWait != []
  }

  /** What is being written belongs to a write under way. */
  ghost predicate UnderWay(t: Trans) {
    t.writing != [] ==> t.isWriting
  }

  /** Only the start of a write fills writing_queue, with the whole of its batch, which is
      also what the socket gets; any other step leaves it as it is or empties it. */
  lemma StepKeepsBatch(s: Sys, e: Step)
    requires UnderWay(s.t)
    ensures var t := Apply(s, e).t;
            && UnderWay(t)
            && if StartsWrite(s, e) then
                 t.isWriting && t.writing == Merged(s.t).writeWait && t.wire == s.t.wire + t.writing
               else
                 t.writing == s.t.writing || t.writing == []
  {
    hide WriteAsync, WriteDone, CheckTimeout, Report, Reset, Poll, FirstIdle, Resps, Select;
    match e
    case DoReset => ResetEmpties(s);
    case DoReconn(again) => ResetEmpties(s);
    case DoConnAsync(started, again) => ResetEmpties(s.(t := s.t.(conn := Connecting)));
    case DoConnDone(connected, reading, again, now) =>
      ResetEmpties(s.(t := s.t.(isConnecting := false)));
      ResetEmpties(s.(t := s.t.(isConnecting := false, conn := Handshaking)));
    case DoHandshakeResp(accepted, now) => ResetEmpties(s);
    case DoWriteAsync(ret) => WriteAsyncMoves(s, ret);
    case DoWriteDone(good) => WriteDoneMoves(s, good);
    case DoCheckTimeout(now) => SweepMoves(s, now);
    case _ =>
  }

  /** The batch of the last write a run has started, `batch` when it starts none. */
  function LastBatch(s: Sys, run: seq<Step>, batch: seq<Item>): seq<Item>
    decreases run
  {
    if run == [] then batch
    else LastBatch(Apply(s, run[0]), run[1..], if StartsWrite(s, run[0]) then Merged(s.t).writeWait else batch)
  }

  lemma {:induction false} RunKeepsBatch(s: Sys, run: seq<Step>, batch: seq<Item>)
    requires UnderWay(s.t) && OnlyRequests(s.t) && (s.t.writing == [] || s.t.writing == batch)
    ensures var t := After(s, run).t;
            UnderWay(t) && OnlyRequests(t) && (t.writing == [] || t.writing == LastBatch(s, run, batch))
    decreases run
  {
    hide Apply, UnderWay, OnlyRequests, StartsWrite;
    if run != [] {
      StepKeepsBatch(s, run[0]);
      StepKeepsRequests(s, run[0]);
      RunKeepsBatch(Apply(s, run[0]), run[1..], if StartsWrite(s, run[0]) then Merged(s.t).writeWait else batch);
    }
  }

  /** After any steps writing_queue is empty unless a write is under way, and only requests
      wait for responses. */
  lemma QueuesMatchWrites(polling: bool, run: seq<Step>)
    ensures var t := After(Init(polling), run).t; UnderWay(t) && OnlyRequests(t)
  {
    RunKeepsBatch(Init(polling), run, []);
  }

  /** After any steps a completion finds the whole batch of the last accepted write, or
      nothing when a reset took it: exactly that is acknowledged, and exactly its requests
      go on to wait for responses. */
  lemma CompletionFindsItsBatch(polling: bool, run: seq<Step>, good: bool)
    ensures var s := After(Init(polling), run);
            var batch := LastBatch(Init(polling), run, []);
            && (s.t.writing == [] || (s.t.isWriting && s.t.writing == batch))
            && var t := WriteDone(s, good).t;
            && t.writing == [] && !t.isWriting
            && t.respPending == s.t.respPending + if good && s.t.writing != [] then Resps(batch) else []
    ensures var s := After(Init(polling), run);
            var found := if s.t.writing == [] then [] else LastBatch(Init(polling), run, []);
            WriteDone(s, good) == Written(s.(t := s.t.(isWriting := false, writing := [])), found,
                                          if good then RC_OK else RC_ERROR)
  {
    hide After, LastBatch, Written, Init;
    QueuesMatchWrites(polling, run);
    StartsEmpty(polling);
    RunKeepsBatch(Init(polling), run, []);
    WriteDoneMoves(After(Init(polling), run), good);
    assert Resps([]) == [];
  }

  lemma StartsEmpty(polling: bool)
    ensures var t := Init(polling).t; UnderWay(t) && OnlyRequests(t) && t.writing == []
  {
  }

  /** A write that starts after any steps hands the socket exactly the batch its completion
      will find. */
  lemma WriteIsItsBatch(polling: bool, run: seq<Step>)
    requires StartsWrite(After(Init(polling), run), DoWriteAsync(0))
    ensures var s := After(Init(polling), run);
            var t := WriteAsync(s, 0).t;
            && s.t.writing == [] && t.isWriting && t.writing == Merged(s.t).writeWait
            && t.wire == s.t.wire + t.writing
  {
    hide After, WriteAsync;
    QueuesMatchWrites(polling, run);
    StepKeepsBatch(After(Init(polling), run), DoWriteAsync(0));
  }
}
