/** What each queue may hold and in what order items go out, over whole runs: each law is
    proved together with exactly the steps that break it. */
module LifecycleOrder {
  import opened Lifecycle
  import opened LifecycleRuns

  // ---- Laws and the steps that break them

  /** `p` holds now and after every step of the run. */
  ghost predicate Throughout(s: Sys, run: seq<Step>, p: Sys -> bool)
    decreases run
  {
    p(s) && (run == [] || Throughout(Apply(s, run[0]), run[1..], p))
  }

  /** No step of the run is marked by `q` where it is taken. */
  ghost predicate Without(s: Sys, run: seq<Step>, q: (Sys, Step) -> bool)
    decreases run
  {
    run == [] || (!q(s, run[0]) && Without(Apply(s, run[0]), run[1..], q))
  }

  lemma Unfold(s: Sys, run: seq<Step>)
    ensures run == [] ==> After(s, run) == s && Possible(s, run)
    ensures run != [] ==> After(s, run) == After(Apply(s, run[0]), run[1..])
    ensures run != [] ==> (Possible(s, run) <==> Enabled(s, run[0]) && Possible(Apply(s, run[0]), run[1..]))
  {
  }

  lemma UnfoldLaws(s: Sys, run: seq<Step>, p: Sys -> bool, q: (Sys, Step) -> bool)
    ensures run == [] ==> (Throughout(s, run, p) <==> p(s)) && Without(s, run, q)
    ensures run != [] ==> (Throughout(s, run, p) <==> p(s) && Throughout(Apply(s, run[0]), run[1..], p))
    ensures run != [] ==> (Without(s, run, q) <==> !q(s, run[0]) && Without(Apply(s, run[0]), run[1..], q))
  {
  }

  /** Two steps one after the other. */
  lemma TwoSteps(s: Sys, e: Step, f: Step, q: (Sys, Step) -> bool)
    ensures After(s, [e, f]) == Apply(Apply(s, e), f)
    ensures Possible(s, [e, f]) <==> Enabled(s, e) && Enabled(Apply(s, e), f)
    ensures Without(s, [e, f], q) <==> !q(s, e) && !q(Apply(s, e), f)
  {
    hide Apply, Enabled;
    assert [e, f][1..] == [f] && [f][1..] == [];
    assert After(s, [e, f]) == After(Apply(s, e), [f]) == After(Apply(Apply(s, e), f), []);
    assert Possible(s, [e, f]) <==> Enabled(s, e) && Possible(Apply(s, e), [f]);
    assert Possible(Apply(s, e), [f]) <==> Enabled(Apply(s, e), f) && Possible(Apply(Apply(s, e), f), []);
    assert Without(s, [e, f], q) <==> !q(s, e) && Without(Apply(s, e), [f], q);
    assert Without(Apply(s, e), [f], q) <==> !q(Apply(s, e), f) && Without(Apply(Apply(s, e), f), [], q);
  }

  lemma OneStep(s: Sys, e: Step, q: (Sys, Step) -> bool)
    ensures After(s, [e]) == Apply(s, e)
    ensures Possible(s, [e]) <==> Enabled(s, e)
    ensures Without(s, [e], q) <==> !q(s, e)
  {
    hide Apply, Enabled;
    assert [e][1..] == [];
    assert After(s, [e]) == After(Apply(s, e), []);
    assert Possible(s, [e]) <==> Enabled(s, e) && Possible(Apply(s, e), []);
    assert Without(s, [e], q) <==> !q(s, e) && Without(Apply(s, e), [], q);
  }

  /** The write under way completes and the next one is accepted. */
  function Flush(s: Sys): seq<Step> {
    if s.t.isWriting then [DoWriteDone(true), DoWriteAsync(0)] else [DoWriteAsync(0)]
  }

  /** After a flush everything queued for writing is in `wire`. */
  lemma FlushWrites(s: Sys, q: (Sys, Step) -> bool)
    requires s.t.conn != NotConn && Merged(s.t).writeWait != []
    ensures Possible(s, Flush(s))
    ensures (forall u: Sys :: !q(u, DoWriteDone(true)) && !q(u, DoWriteAsync(0))) ==> Without(s, Flush(s), q)
    ensures var t := After(s, Flush(s)).t;
            t.conn == s.t.conn && t.wire == s.t.wire + Merged(s.t).writeWait
  {
    hide After, Possible, Without, WriteDone, WriteAsync;
    if s.t.isWriting {
      TwoSteps(s, DoWriteDone(true), DoWriteAsync(0), q);
      WriteDoneMoves(s, true);
      WriteAsyncMoves(WriteDone(s, true), 0);
    } else {
      OneStep(s, DoWriteAsync(0), q);
      WriteAsyncMoves(s, 0);
    }
  }

  /** No connection attempt is under way but before a connection. */
  predicate Dialling(t: Trans) {
    t.isConnecting ==> t.conn == NotConn || t.conn == Connecting
  }

  // ---- What each queue may hold

  /** Before the handshake is done the write queues hold only internal items and nothing
      waits for a response; only requests ever do.  Nothing is said of conn_pending_queue
      but that it holds no internal item: it may be filled in any state. */
  ghost predicate KindsIn(t: Trans) {
    && (t.conn != Done ==> AllInternal(t.writeWait) && AllInternal(t.writing) && t.respPending == [])
    && (forall i :: 0 <= i < |t.respPending| ==> t.respPending[i].kind.Resp?)
    && (forall i :: 0 <= i < |t.connPending| ==> !t.connPending[i].kind.Internal?)
    && (t.writing != [] ==> t.isWriting)
  }

  ghost predicate Kinds(s: Sys) {
    KindsIn(s.t)
  }

  /** A connect request that is handled on an open connection and finds application data
      queued for writing, being written or unanswered.  Items in conn_pending_queue do
      not matter: they stay there until the next handshake is done. */
  ghost predicate Strands(s: Sys, e: Step) {
    && e.DoConnAsync? && e.started && s.t.conn == Done && !s.t.isConnecting
    && !(AllInternal(s.t.writeWait) && AllInternal(s.t.writing) && s.t.respPending == [])
  }

  lemma InternalParts(a: seq<Item>, b: seq<Item>)
    ensures AllInternal(a + b) <==> AllInternal(a) && AllInternal(b)
    ensures AllInternal([])
  {
    assert forall i :: 0 <= i < |a| ==> (a + b)[i] == a[i];
    assert forall i :: 0 <= i < |b| ==> (a + b)[|a| + i] == b[i];
  }

  lemma InternalOne(wi: Item)
    ensures AllInternal([wi]) <==> wi.kind.Internal?
  {
    assert [wi][0] == wi;
  }

  lemma KindsSent(s: Sys, c: Client, seqNum: nat, reqId: nat, timeout: int, now: int)
    requires Kinds(s)
    ensures Kinds(Sys(c, Send(s.t, seqNum, reqId, timeout, now)))
    ensures Dialling(Send(s.t, seqNum, reqId, timeout, now)) == Dialling(s.t)
  {
    hide AllInternal;
  }

  lemma KindsAdded(s: Sys, frame: Frame, now: int)
    requires Kinds(s)
    ensures Kinds(s.(t := AddInternal(s.t, frame, now)))
  {
    hide AllInternal;
    var wi := NewItem(s.t, Internal(frame), INVALID_REQ_ID, INVALID_REQ_ID, WITHOUT_TIMEOUT, now);
    InternalOne(wi);
    InternalParts(s.t.writeWait, [wi]);
    InternalParts([wi], s.t.writeWait);
  }

  lemma KindsReset(s: Sys, again: bool)
    ensures Kinds(Reset(s)) && Kinds(Reconn(s, again))
    ensures Dialling(Reset(s).t) && Dialling(Reconn(s, again).t)
  {
    hide Reset;
    ResetEmpties(s);
  }

  lemma KindsWriting(s: Sys, ret: int)
    requires Kinds(s)
    ensures Kinds(WriteAsync(s, ret)) && Dialling(WriteAsync(s, ret).t) == Dialling(s.t)
  {
    hide WriteAsync, AllInternal;
    WriteAsyncMoves(s, ret);
    InternalParts(s.t.writing, s.t.writeWait);
  }

  lemma KindsWritten(s: Sys, good: bool)
    requires Kinds(s)
    ensures Kinds(WriteDone(s, good)) && Dialling(WriteDone(s, good).t) == Dialling(s.t)
  {
    hide WriteDone, AllInternal, Resps;
    WriteDoneMoves(s, good);
    InternalParts([], []);
  }

  lemma KindsDialled(s: Sys, started: bool, again: bool)
    requires Kinds(s) && Dialling(s.t)
    ensures Dialling(ConnAsync(s, started, again).t)
    ensures Kinds(ConnAsync(s, started, again)) <==> !Strands(s, DoConnAsync(started, again))
  {
    hide Reconn, AllInternal;
    KindsReset(s.(t := s.t.(conn := Connecting)), again);
  }

  lemma KindsConnected(s: Sys, connected: bool, reading: bool, again: bool, now: int)
    requires Kinds(s) && Dialling(s.t) && s.t.isConnecting
    ensures var u := ConnDone(s, connected, reading, again, now); Kinds(u) && Dialling(u.t)
  {
    hide Reconn, AllInternal, AddInternal;
    var t := s.t.(isConnecting := false);
    KindsReset(s.(t := t), again);
    KindsReset(s.(t := t.(conn := Handshaking)), again);
    KindsAdded(s.(t := t.(conn := Handshaking)), Handshake, now);
    AddedKeeps(t.(conn := Handshaking), Handshake, now);
  }

  lemma AddedKeeps(t: Trans, frame: Frame, now: int)
    ensures var u := AddInternal(t, frame, now);
            && u == t.(writeWait := u.writeWait, busy := u.busy, nextId := u.nextId, live := u.live)
            && exists wi: Item ::
                 && wi.kind == Internal(frame)
                 && u.writeWait == if frame.Heartbeat? then t.writeWait + [wi] else [wi] + t.writeWait
  {
  }

  lemma KindsShaken(s: Sys, accepted: bool, now: int)
    requires Kinds(s) && Dialling(s.t) && s.t.conn == Handshaking
    ensures var u := HandshakeResp(s, accepted, now); Kinds(u) && Dialling(u.t)
  {
    hide Reset, AllInternal, AddInternal;
    KindsReset(s, false);
    KindsAdded(s, HandshakeAck, now);
    AddedKeeps(s.t, HandshakeAck, now);
  }

  lemma KindsAnswered(s: Sys, reqId: nat)
    requires Kinds(s)
    ensures Kinds(Response(s, reqId)) && Dialling(Response(s, reqId).t) == Dialling(s.t)
  {
    hide AllInternal, Report;
  }

  lemma KindsStepIff(s: Sys, e: Step)
    requires Kinds(s) && Dialling(s.t) && Enabled(s, e)
    ensures Dialling(Apply(s, e).t)
    ensures Kinds(Apply(s, e)) <==> !Strands(s, e)
  {
    hide KindsIn, WriteAsync, WriteDone, CheckTimeout, Report, Reset, Reconn, Poll, FirstIdle, Send, AddInternal;
    hide AllInternal;
    match e
    case DoRequest(encoded, timeout, now) =>
      KindsSent(s, Request(s, encoded, timeout, now).c, s.c.seqNum, NextReqId(s.c), timeout, now);
    case DoNotify(encoded, timeout, now) =>
      KindsSent(s, NotifyCall(s, encoded, timeout, now).c, s.c.seqNum, NOTIFY_PUSH_REQ_ID, timeout, now);
    case DoConnAsync(started, again) => KindsDialled(s, started, again);
    case DoConnDone(connected, reading, again, now) => KindsConnected(s, connected, reading, again, now);
    case DoHandshakeResp(accepted, now) => KindsShaken(s, accepted, now);
    case DoHeartbeatTimer(now) => KindsAdded(s, Heartbeat, now); AddedKeeps(s.t, Heartbeat, now);
    case DoWriteAsync(ret) => KindsWriting(s, ret);
    case DoWriteDone(good) => KindsWritten(s, good);
    case DoCheckTimeout(now) => KindsSwept(s, now);
    case DoReset => KindsReset(s, false);
    case DoReconn(again) => KindsReset(s, again);
    case DoResponse(reqId) => KindsAnswered(s, reqId);
    case _ =>
  }

  lemma SelectKeepsKind(items: seq<Item>, now: int)
    ensures var r := Select(items, now, false);
            && (AllInternal(items) ==> AllInternal(r)) && (items == [] ==> r == [])
            && ((forall i :: 0 <= i < |items| ==> items[i].kind.Resp?) ==> forall i :: 0 <= i < |r| ==> r[i].kind.Resp?)
            && ((forall i :: 0 <= i < |items| ==> !items[i].kind.Internal?) ==>
                forall i :: 0 <= i < |r| ==> !r[i].kind.Internal?)
  {
    SelectFilters(items, now, false);
    var r := Select(items, now, false);
    assert forall i :: 0 <= i < |r| ==> r[i] in r;
  }

  lemma KindsSwept(s: Sys, now: int)
    requires Kinds(s)
    ensures Kinds(s.(t := CheckTimeout(s, now).t)) && Dialling(CheckTimeout(s, now).t) == Dialling(s.t)
  {
    hide CheckTimeout, Select, AllInternal;
    SweepMoves(s, now);
    SelectKeepsKind(s.t.connPending, now);
    SelectKeepsKind(s.t.writeWait, now);
    SelectKeepsKind(s.t.respPending, now);
  }

  lemma {:induction false} KindsRunIff(s: Sys, run: seq<Step>)
    requires Kinds(s) && Dialling(s.t) && Possible(s, run)
    ensures Throughout(s, run, Kinds) <==> Without(s, run, Strands)
    decreases run
  {
    hide Kinds, Dialling, Strands, Apply, Enabled, Throughout, Without;
    UnfoldLaws(s, run, Kinds, Strands);
    if run != [] {
      KindsStepIff(s, run[0]);
      UnfoldLaws(Apply(s, run[0]), run[1..], Kinds, Strands);
      if Kinds(Apply(s, run[0])) {
        KindsRunIff(Apply(s, run[0]), run[1..]);
      }
    }
  }

  /** The queues hold what they may throughout a run exactly when no connect request in
      it strands application data. */
  lemma QueuesHoldTheirKindIff(polling: bool, run: seq<Step>)
    requires Possible(Init(polling), run)
    ensures Throughout(Init(polling), run, Kinds) <==> Without(Init(polling), run, Strands)
  {
    KindsRunIff(Init(polling), run);
  }

  // ---- Handshake, ack, application data

  /** A handshake or a heartbeat: what may go out before the ack. */
  predicate Early(wi: Item) {
    wi.kind == Internal(Handshake) || wi.kind == Internal(Heartbeat)
  }

  ghost predicate AllEarly(items: seq<Item>) {
    forall i :: 0 <= i < |items| ==> Early(items[i])
  }

  /** One of the first `n` items carries this frame. */
  ghost predicate Contains(items: seq<Item>, n: nat, frame: Frame)
    requires n <= |items|
  {
    exists i :: 0 <= i < n && items[i].kind == Internal(frame)
  }

  /** Whatever went out on the socket besides handshakes and heartbeats went out after a
      handshake, and application data after an ack as well; and the handshake is done. */
  ghost predicate InOrder(s: Sys) {
    forall k :: 0 <= k < |s.t.wire| && !Early(s.t.wire[k]) ==>
      && s.t.conn == Done && Contains(s.t.wire, k, Handshake)
      && (!s.t.wire[k].kind.Internal? ==> Contains(s.t.wire, k, HandshakeAck))
  }

  /** Item `n` is the first ack, nothing but handshakes and heartbeats before it. */
  ghost predicate OpensWith(line: seq<Item>, n: nat) {
    && n < |line| && line[n].kind == Internal(HandshakeAck)
    && AllEarly(line[..n]) && Contains(line, n, Handshake)
  }

  ghost predicate Opened(line: seq<Item>) {
    exists n: nat :: OpensWith(line, n)
  }

  /** Internal items never expire. */
  ghost predicate Patient(items: seq<Item>) {
    forall i :: 0 <= i < |items| && items[i].kind.Internal? ==> items[i].timeout == WITHOUT_TIMEOUT
  }

  /** What was sent on this socket and what is queued behind it. */
  function Line(t: Trans): seq<Item> {
    t.wire + t.writeWait
  }

  ghost predicate Steady(t: Trans) {
    && Dialling(t) && Patient(t.writeWait)
    && if t.conn == Done then Opened(Line(t)) else AllEarly(Line(t))
  }

  /** What upsets the order: a connect request handled on an open connection with more
      than handshakes and heartbeats queued for writing; a handshake response accepted
      before the handshake was written; a failed write of the batch that holds the ack. */
  ghost predicate Upsets(s: Sys, e: Step) {
    match e
    case DoConnAsync(started, _) => started && s.t.conn == Done && !s.t.isConnecting && !AllEarly(s.t.writeWait)
    case DoHandshakeResp(accepted, _) => accepted && !Contains(s.t.wire, |s.t.wire|, Handshake)
    case DoWriteAsync(ret) =>
      ret != 0 && s.t.conn == Done && !s.t.isWriting && !Contains(s.t.wire, |s.t.wire|, HandshakeAck)
    case _ => false
  }

  lemma OpenedAppend(line: seq<Item>, more: seq<Item>)
    requires Opened(line)
    ensures Opened(line + more)
  {
    var n: nat :| OpensWith(line, n);
    assert (line + more)[..n] == line[..n];
    assert OpensWith(line + more, n);
  }

  lemma EarlyParts(a: seq<Item>, b: seq<Item>)
    ensures AllEarly(a + b) <==> AllEarly(a) && AllEarly(b)
  {
    assert forall i :: 0 <= i < |a| ==> (a + b)[i] == a[i];
    assert forall i :: 0 <= i < |b| ==> (a + b)[|a| + i] == b[i];
  }

  /** Of an opened line a part that holds an ack is opened, any other is not. */
  lemma OpenedPartIff(a: seq<Item>, b: seq<Item>)
    requires Opened(a + b)
    ensures Opened(a) <==> Contains(a, |a|, HandshakeAck)
  {
    var n: nat :| OpensWith(a + b, n);
    if i :| 0 <= i < |a| && a[i].kind == Internal(HandshakeAck) {
      assert (a + b)[i] == a[i] && (i < n ==> Early((a + b)[..n][i]));
      assert n <= i && (a + b)[..n] == a[..n];
      assert OpensWith(a, n);
    }
    if Opened(a) {
      var m: nat :| OpensWith(a, m);
      assert a[m].kind == Internal(HandshakeAck);
    }
  }

  /** The ack put behind what was written opens the line exactly when the handshake is
      among it. */
  lemma AckOpensIff(wire: seq<Item>, wait: seq<Item>, ack: Item)
    requires AllEarly(wire) && ack.kind == Internal(HandshakeAck)
    ensures Opened(wire + ([ack] + wait)) <==> Contains(wire, |wire|, Handshake)
  {
    var line := wire + ([ack] + wait);
    assert line[|wire|] == ack && line[..|wire|] == wire;
    if Contains(wire, |wire|, Handshake) {
      assert OpensWith(line, |wire|);
    }
    if Opened(line) {
      var n: nat :| OpensWith(line, n);
      assert n < |wire| ==> !Early(wire[n]);
      assert n > |wire| ==> Early(line[..n][|wire|]);
    }
  }

  lemma ConnAsyncSteadyIff(s: Sys, started: bool, again: bool)
    requires Steady(s.t)
    ensures Steady(ConnAsync(s, started, again).t) <==> !Upsets(s, DoConnAsync(started, again))
  {
    hide Reconn, Opened, AllEarly;
    ReconnEmpties(s.(t := s.t.(conn := Connecting)), again);
    EarlyParts(s.t.wire, s.t.writeWait);
    NothingQueued(Reconn(s.(t := s.t.(conn := Connecting)), again).t);
    assert [] + s.t.writeWait == s.t.writeWait;
  }

  lemma NothingQueued(t: Trans)
    ensures t.wire == [] && t.writeWait == [] ==> AllEarly(Line(t)) && Patient(t.writeWait)
  {
  }

  lemma EarlyOne(wi: Item)
    ensures AllEarly([wi]) <==> Early(wi)
  {
    assert [wi][0] == wi;
  }

  lemma QueuedSteady(t: Trans, wi: Item)
    requires Steady(t) && (wi.kind.Internal? ==> wi.timeout == WITHOUT_TIMEOUT) && (t.conn != Done ==> Early(wi))
    ensures Steady(t.(writeWait := t.writeWait + [wi]))
  {
    hide Opened, AllEarly;
    if t.conn == Done {
      OpenedAppend(Line(t), [wi]);
    }
    EarlyParts(Line(t), [wi]);
    EarlyOne(wi);
    assert Line(t) + [wi] == t.wire + (t.writeWait + [wi]);
  }

  lemma HeadQueued(wire: seq<Item>, wait: seq<Item>, wi: Item)
    requires AllEarly(wire + wait) && Early(wi)
    ensures AllEarly(wire + ([wi] + wait))
  {
    hide AllEarly;
    EarlyParts(wire, wait);
    EarlyOne(wi);
    EarlyParts([wi], wait);
    EarlyParts(wire, [wi] + wait);
  }

  lemma ConnDoneSteady(s: Sys, connected: bool, reading: bool, again: bool, now: int)
    requires Steady(s.t) && s.t.isConnecting
    ensures Steady(ConnDone(s, connected, reading, again, now).t)
  {
    hide Reconn, Opened, AllEarly;
    var t := s.t.(isConnecting := false);
    ReconnEmpties(s.(t := t), again);
    NothingQueued(Reconn(s.(t := t), again).t);
    ReconnEmpties(s.(t := t.(conn := Handshaking)), again);
    NothingQueued(Reconn(s.(t := t.(conn := Handshaking)), again).t);
    HeadQueued(t.wire, t.writeWait,
               NewItem(t, Internal(Handshake), INVALID_REQ_ID, INVALID_REQ_ID, WITHOUT_TIMEOUT, now));
  }

  lemma HandshakeRespSteadyIff(s: Sys, accepted: bool, now: int)
    requires Steady(s.t) && s.t.conn == Handshaking
    ensures Steady(HandshakeResp(s, accepted, now).t) <==> !Upsets(s, DoHandshakeResp(accepted, now))
  {
    hide Reset, Opened, AllEarly;
    ResetEmpties(s);
    NothingQueued(Reset(s).t);
    EarlyParts(s.t.wire, s.t.writeWait);
    AckOpensIff(s.t.wire, s.t.writeWait,
                NewItem(s.t, Internal(HandshakeAck), INVALID_REQ_ID, INVALID_REQ_ID, WITHOUT_TIMEOUT, now));
  }

  lemma WriteAsyncSteadyIff(s: Sys, ret: int)
    requires Steady(s.t)
    ensures Steady(WriteAsync(s, ret).t) <==> !Upsets(s, DoWriteAsync(ret))
  {
    hide WriteAsync, Opened, AllEarly;
    WriteAsyncMoves(s, ret);
    var m := Merged(s.t);
    EarlyParts(s.t.wire, s.t.writeWait);
    assert m.wire + m.writeWait + [] == m.wire + m.writeWait && m.wire + [] == m.wire;
    if s.t.conn == Done {
      OpenedAppend(Line(s.t), s.t.connPending);
      assert Line(s.t) + s.t.connPending == m.wire + m.writeWait;
      OpenedPartIff(m.wire, m.writeWait);
    }
  }

  lemma {:induction false} SelectPatient(a: seq<Item>, b: seq<Item>, now: int)
    requires AllInternal(a) && Patient(a)
    ensures Select(a + b, now, false) == a + Select(b, now, false)
  {
    if a == [] {
      assert a + b == b;
    } else {
      assert (a + b)[0] == a[0] && (a + b)[1..] == a[1..] + b;
      SelectPatient(a[1..], b, now);
      assert !Expired(a[0], now);
    }
  }

  /** The sweep leaves the internal items at the head of a queue. */
  lemma SweptBehind(wire: seq<Item>, wait: seq<Item>, n: nat, now: int)
    requires n <= |wire + wait| && AllInternal((wire + wait)[..n]) && Patient(wait)
    ensures |wire + Select(wait, now, false)| >= n
    ensures (wire + Select(wait, now, false))[..n] == (wire + wait)[..n]
  {
    if n > |wire| {
      var k := n - |wire|;
      assert forall i :: 0 <= i < k ==> wait[..k][i] == (wire + wait)[..n][|wire| + i];
      assert wait == wait[..k] + wait[k..];
      SelectPatient(wait[..k], wait[k..], now);
    }
  }

  lemma SweptSteady(s: Sys, now: int)
    requires Steady(s.t)
    ensures Steady(CheckTimeout(s, now).t)
  {
    hide CheckTimeout, Select;
    SweepMoves(s, now);
    var wire, wait := s.t.wire, s.t.writeWait;
    SelectFilters(wait, now, false);
    var r := Select(wait, now, false);
    assert forall i :: 0 <= i < |r| ==> r[i] in r;
    if s.t.conn == Done {
      var n: nat :| OpensWith(wire + wait, n);
      assert forall i :: 0 <= i < n ==> Early((wire + wait)[..n][i]);
      SweptBehind(wire, wait, n + 1, now);
      assert (wire + r)[..n + 1][..n] == (wire + wait)[..n + 1][..n];
      assert (wire + r)[..n] == (wire + r)[..n + 1][..n] && (wire + wait)[..n] == (wire + wait)[..n + 1][..n];
      assert (wire + r)[n] == (wire + r)[..n + 1][n] == (wire + wait)[n];
      assert OpensWith(wire + r, n);
    } else {
      EarlyParts(wire, wait);
      EarlyParts(wire, r);
    }
  }

  /** A step keeps the order exactly when it does not upset it. */
  lemma SteadyStepIff(s: Sys, e: Step)
    requires Steady(s.t) && Enabled(s, e)
    ensures Steady(Apply(s, e).t) <==> !Upsets(s, e)
  {
    hide WriteAsync, WriteDone, CheckTimeout, Report, Reset, Reconn, ConnDone, ConnAsync, HandshakeResp, Poll;
    hide FirstIdle, Resps;
    hide Opened, AllEarly, Patient;
    match e
    case DoRequest(encoded, timeout, now) => SendSteady(s.t, s.c.seqNum, NextReqId(s.c), timeout, now);
    case DoNotify(encoded, timeout, now) => SendSteady(s.t, s.c.seqNum, NOTIFY_PUSH_REQ_ID, timeout, now);
    case DoConnAsync(started, again) => ConnAsyncSteadyIff(s, started, again);
    case DoConnDone(connected, reading, again, now) => ConnDoneSteady(s, connected, reading, again, now);
    case DoHandshakeResp(accepted, now) => HandshakeRespSteadyIff(s, accepted, now);
    case DoHeartbeatTimer(now) =>
      QueuedSteady(s.t, NewItem(s.t, Internal(Heartbeat), INVALID_REQ_ID, INVALID_REQ_ID, WITHOUT_TIMEOUT, now));
    case DoWriteAsync(ret) => WriteAsyncSteadyIff(s, ret);
    case DoWriteDone(good) => WriteDoneMoves(s, good);
    case DoCheckTimeout(now) => SweptSteady(s, now);
    case DoReset => EmptiedSteady(s, false);
    case DoReconn(again) => EmptiedSteady(s, again);
    case _ =>
  }

  lemma SendSteady(t: Trans, seqNum: nat, reqId: nat, timeout: int, now: int)
    requires Steady(t)
    ensures Steady(Send(t, seqNum, reqId, timeout, now))
  {
    hide Opened, AllEarly;
    var kind := if reqId == NOTIFY_PUSH_REQ_ID then Notify else Resp;
    if t.conn == Done {
      QueuedSteady(t, NewItem(t, kind, seqNum, reqId, timeout, now));
    }
  }

  lemma EmptiedSteady(s: Sys, again: bool)
    requires Steady(s.t)
    ensures Steady(Reset(s).t) && Steady(Reconn(s, again).t)
  {
    hide Reset, Opened, AllEarly;
    ResetEmpties(s);
    NothingQueued(Reset(s).t);
    NothingQueued(Reconn(s, again).t);
  }

  lemma FirstLate(line: seq<Item>, n: nat, k: nat)
    requires OpensWith(line, n) && k < |line| && !Early(line[k])
    ensures n <= k
  {
    assert forall i :: 0 <= i < n ==> line[..n][i] == line[i] && Early(line[..n][i]);
  }

  lemma SteadyInOrder(s: Sys)
    requires Steady(s.t)
    ensures InOrder(s)
  {
    var wire, line := s.t.wire, Line(s.t);
    forall k | 0 <= k < |wire| && !Early(wire[k])
      ensures s.t.conn == Done && Contains(wire, k, Handshake)
      ensures !wire[k].kind.Internal? ==> Contains(wire, k, HandshakeAck)
    {
      assert line[k] == wire[k];
      var n: nat :| OpensWith(line, n);
      FirstLate(line, n, k);
      var i :| 0 <= i < n && line[i].kind == Internal(Handshake);
      assert wire[i] == line[i] && (n < k ==> wire[n] == line[n]);
    }
  }

  // ---- Exactly the steps that upset the order break it

  /** Nothing that may still happen, short of another upset, breaks the order. */
  ghost predicate OrderHolds(s: Sys) {
    forall more :: Possible(s, more) && Without(s, more, Upsets) ==> InOrder(After(s, more))
  }

  lemma {:induction false} SteadyRun(s: Sys, run: seq<Step>)
    requires Steady(s.t) && Possible(s, run) && Without(s, run, Upsets)
    ensures Steady(After(s, run).t)
    decreases run
  {
    hide Steady, Upsets, Apply, Enabled;
    Unfold(s, run);
    if run != [] {
      SteadyStepIff(s, run[0]);
      SteadyRun(Apply(s, run[0]), run[1..]);
    }
  }

  lemma SteadyHolds(s: Sys)
    requires Steady(s.t)
    ensures OrderHolds(s)
  {
    hide Steady, Upsets, After, Possible, InOrder, Without;
    forall more | Possible(s, more) && Without(s, more, Upsets)
      ensures InOrder(After(s, more))
    {
      SteadyRun(s, more);
      SteadyInOrder(After(s, more));
    }
  }

  lemma Flushed(s: Sys, k: nat)
    requires s.t.conn != NotConn && k < |Line(s.t)| && !Early(Line(s.t)[k])
    requires s.t.conn != Done || !Contains(Line(s.t), k, Handshake)
    ensures !OrderHolds(s)
  {
    hide After, Possible, Without;
    var m := Merged(s.t);
    if m.writeWait == [] {
      OrderNow(s);
      assert s.t.wire + [] == s.t.wire;
    } else {
      FlushWrites(s, Upsets);
      var u := After(s, Flush(s));
      assert forall i :: 0 <= i <= k ==> u.t.wire[i] == Line(s.t)[i];
      assert !InOrder(u);
    }
  }

  lemma OrderNow(s: Sys)
    ensures OrderHolds(s) ==> InOrder(s)
  {
    Unfold(s, []);
    assert Without(s, [], Upsets);
  }

  lemma LateConnectBreaks(s: Sys, again: bool)
    requires s.t.conn == Done && !s.t.isConnecting && !AllEarly(s.t.writeWait)
    ensures !OrderHolds(ConnAsync(s, true, again))
  {
    var u := ConnAsync(s, true, again);
    var k :| 0 <= k < |s.t.writeWait| && !Early(s.t.writeWait[k]);
    assert Line(u.t)[k] == s.t.writeWait[k];
    Flushed(u, k);
  }

  lemma EarlyResponseBreaks(s: Sys, now: int)
    requires Steady(s.t) && s.t.conn == Handshaking && !Contains(s.t.wire, |s.t.wire|, Handshake)
    ensures !OrderHolds(HandshakeResp(s, true, now))
  {
    var u := HandshakeResp(s, true, now);
    var n := |s.t.wire|;
    assert Line(u.t)[n].kind == Internal(HandshakeAck);
    assert forall i :: 0 <= i < n ==> Line(u.t)[i] == s.t.wire[i];
    Flushed(u, n);
  }

  lemma LostAckBreaks(s: Sys, ret: int)
    requires Steady(s.t) && Upsets(s, DoWriteAsync(ret))
    ensures !OrderHolds(WriteAsync(s, ret))
  {
    hide WriteAsync, Without, After, Possible;
    WriteAsyncMoves(s, ret);
    AckQueued(s.t);
    var u := WriteAsync(s, ret);
    var f := DoNotify(true, WITHOUT_TIMEOUT, 0);
    TwoSteps(u, f, DoWriteAsync(0), Upsets);
    var v := Apply(u, f);
    WriteAsyncMoves(v, 0);
    var w := Apply(v, DoWriteAsync(0));
    var k := |s.t.wire|;
    assert |w.t.wire| == k + 1 && w.t.wire[k].kind == Notify;
    assert forall i :: 0 <= i < k ==> w.t.wire[i] == s.t.wire[i];
    assert !InOrder(w);
    assert w == After(u, [f, DoWriteAsync(0)]);
  }

  /** An ack that was not sent is still queued. */
  lemma AckQueued(t: Trans)
    requires Steady(t) && t.conn == Done
    ensures Merged(t).writeWait != [] || Contains(t.wire, |t.wire|, HandshakeAck)
  {
    var n: nat :| OpensWith(Line(t), n);
    assert n < |t.wire| ==> t.wire[n].kind == Internal(HandshakeAck);
  }

  /** Once the order is kept, a step endangers it exactly when it is one of the three. */
  lemma OrderStepIff(s: Sys, e: Step)
    requires Steady(s.t) && Enabled(s, e)
    ensures OrderHolds(Apply(s, e)) <==> !Upsets(s, e)
  {
    hide OrderHolds, Steady, HandshakeResp, WriteAsync, ConnAsync;
    if Upsets(s, e) {
      match e
      case DoConnAsync(started, again) => LateConnectBreaks(s, again);
      case DoHandshakeResp(accepted, now) => EarlyResponseBreaks(s, now);
      case DoWriteAsync(ret) => LostAckBreaks(s, ret);
      case _ =>
    } else {
      SteadyStepIff(s, e);
      SteadyHolds(Apply(s, e));
    }
  }

  lemma {:induction false} OrderRunIff(s: Sys, run: seq<Step>)
    requires Steady(s.t) && Possible(s, run)
    ensures Throughout(s, run, OrderHolds) <==> Without(s, run, Upsets)
    decreases run
  {
    hide OrderHolds, Steady, Upsets, Apply, Enabled, Throughout, Without;
    UnfoldLaws(s, run, OrderHolds, Upsets);
    SteadyHolds(s);
    if run != [] {
      OrderStepIff(s, run[0]);
      SteadyStepIff(s, run[0]);
      UnfoldLaws(Apply(s, run[0]), run[1..], OrderHolds, Upsets);
      if !Upsets(s, run[0]) {
        OrderRunIff(Apply(s, run[0]), run[1..]);
      }
    }
  }

  lemma InitSteady(polling: bool)
    ensures Steady(Init(polling).t)
  {
    NothingQueued(Init(polling).t);
  }

  /** On every socket the handshake goes out first, then its ack, then application data,
      in every run without one of the three upsets; and an upset is where it stops being
      safe: from there some run without any other upset sends out of order. */
  lemma HandshakeGoesFirstIff(polling: bool, run: seq<Step>)
    requires Possible(Init(polling), run)
    ensures Throughout(Init(polling), run, OrderHolds) <==> Without(Init(polling), run, Upsets)
  {
    InitSteady(polling);
    OrderRunIff(Init(polling), run);
  }

  lemma HandshakeGoesFirst(polling: bool, run: seq<Step>, k: nat)
    requires Possible(Init(polling), run) && Without(Init(polling), run, Upsets)
    requires var t := After(Init(polling), run).t;
             k < |t.wire| && !t.wire[k].kind.Internal?
    ensures var t := After(Init(polling), run).t;
            && t.conn == Done
            && exists i, j ::
                 && 0 <= i < j < k
                 && t.wire[i].kind == Internal(Handshake) && t.wire[j].kind == Internal(HandshakeAck)
  {
    hide Steady, After, Possible, Without, Init;
    InitSteady(polling);
    SteadyRun(Init(polling), run);
    var s := After(Init(polling), run);
    SteadyInOrder(s);
    var j :| 0 <= j < k && s.t.wire[j].kind == Internal(HandshakeAck);
    assert !Early(s.t.wire[j]);
  }

  // ---- Runs that break it

  /** The response is handled while the handshake still waits to be written: the ack
      goes out in front of it. */
  lemma EarlyResponseFails()
    ensures var run := [DoConnAsync(true, true), DoConnDone(true, true, true, 0),
                        DoHandshakeResp(true, 0), DoWriteAsync(0)];
            var t := After(Init(false), run).t;
            && Possible(Init(false), run)
            && |t.wire| == 2 && t.wire[0].kind == Internal(HandshakeAck) && t.wire[1].kind == Internal(Handshake)
  {
    hide WriteAsync, After, Possible, AddInternal;
    var s0 := Init(false);
    var s1 := Apply(s0, DoConnAsync(true, true));
    AddedKeeps(s1.t.(conn := Handshaking, isConnecting := false), Handshake, 0);
    var s2 := Apply(s1, DoConnDone(true, true, true, 0));
    AddedKeeps(s2.t, HandshakeAck, 0);
    var s3 := Apply(s2, DoHandshakeResp(true, 0));
    assert |s3.t.writeWait| == 2 && s3.t.writeWait[0].kind == Internal(HandshakeAck)
        && s3.t.writeWait[1].kind == Internal(Handshake);
    WriteAsyncMoves(s3, 0);
    assert Apply(s3, DoWriteAsync(0)).t.wire == [] + (s3.t.writeWait + []);
    var run := [DoConnAsync(true, true), DoConnDone(true, true, true, 0), DoHandshakeResp(true, 0), DoWriteAsync(0)];
    Unfold(s0, run);
    Unfold(s1, run[1..]);
    Unfold(s2, run[2..]);
    Unfold(s3, run[3..]);
    Unfold(Apply(s3, DoWriteAsync(0)), []);
    assert run[1..][1..] == run[2..] && run[2..][1..] == run[3..] && run[3..][1..] == [];
  }

  /** A connection made, its handshake written and answered. */
  function Answered(): Sys {
    var s := Apply(Apply(Init(false), DoConnAsync(true, true)), DoConnDone(true, true, true, 0));
    Apply(Apply(Apply(s, DoWriteAsync(0)), DoWriteDone(true)), DoHandshakeResp(true, 0))
  }

  lemma AnsweredShape()
    ensures var t := Answered().t;
            && t.conn == Done && !t.isConnecting && !t.isWriting && t.connPending == []
            && |t.wire| == 1 && |t.writeWait| == 1
            && t.wire[0].kind == Internal(Handshake) && t.writeWait[0].kind == Internal(HandshakeAck)
  {
    hide WriteDone, WriteAsync, AddInternal;
    var s1 := Apply(Init(false), DoConnAsync(true, true));
    AddedKeeps(s1.t.(conn := Handshaking, isConnecting := false), Handshake, 0);
    var s2 := Apply(s1, DoConnDone(true, true, true, 0));
    WriteAsyncMoves(s2, 0);
    var s3 := Apply(s2, DoWriteAsync(0));
    assert s3.t.isWriting && |s3.t.wire| == 1 && s3.t.wire[0].kind == Internal(Handshake);
    WriteDoneMoves(s3, true);
    AddedKeeps(Apply(s3, DoWriteDone(true)).t, HandshakeAck, 0);
  }

  lemma AnsweredRuns(more: seq<Step>)
    ensures var run := [DoConnAsync(true, true), DoConnDone(true, true, true, 0), DoWriteAsync(0),
                        DoWriteDone(true), DoHandshakeResp(true, 0)];
            && (Possible(Init(false), run + more) <==> Possible(Answered(), more))
            && After(Init(false), run + more) == After(Answered(), more)
  {
    AnsweredPossible();
    hide Apply, After, Possible, Enabled;
    var s0 := Init(false);
    var s1 := Apply(s0, DoConnAsync(true, true));
    var s2 := Apply(s1, DoConnDone(true, true, true, 0));
    var s3 := Apply(s2, DoWriteAsync(0));
    var s4 := Apply(s3, DoWriteDone(true));
    var run := [DoConnAsync(true, true), DoConnDone(true, true, true, 0), DoWriteAsync(0),
                DoWriteDone(true), DoHandshakeResp(true, 0)] + more;
    Unfold(s0, run);
    Unfold(s1, run[1..]);
    Unfold(s2, run[2..]);
    Unfold(s3, run[3..]);
    Unfold(s4, run[4..]);
    assert run[5..] == more;
  }

  lemma AnsweredPossible()
    ensures var s1 := Apply(Init(false), DoConnAsync(true, true));
            var s2 := Apply(s1, DoConnDone(true, true, true, 0));
            var s3 := Apply(s2, DoWriteAsync(0));
            && Enabled(Init(false), DoConnAsync(true, true)) && Enabled(s1, DoConnDone(true, true, true, 0))
            && Enabled(s2, DoWriteAsync(0))
            && Enabled(s3, DoWriteDone(true)) && Enabled(Apply(s3, DoWriteDone(true)), DoHandshakeResp(true, 0))
  {
    hide WriteDone, WriteAsync, AddInternal;
    var s1 := Apply(Init(false), DoConnAsync(true, true));
    AddedKeeps(s1.t.(conn := Handshaking, isConnecting := false), Handshake, 0);
    var s2 := Apply(s1, DoConnDone(true, true, true, 0));
    WriteAsyncMoves(s2, 0);
    WriteDoneMoves(Apply(s2, DoWriteAsync(0)), true);
  }

  /** The write of the ack fails and a request is sent without it. */
  lemma LostAckFails()
    ensures var run := [DoConnAsync(true, true), DoConnDone(true, true, true, 0), DoWriteAsync(0),
                        DoWriteDone(true), DoHandshakeResp(true, 0)]
                       + [DoWriteAsync(-1), DoRequest(true, 60, 0), DoWriteAsync(0)];
            var t := After(Init(false), run).t;
            && Possible(Init(false), run)
            && |t.wire| == 2 && t.wire[0].kind == Internal(Handshake) && t.wire[1].kind == Resp
  {
    hide Answered, After, Possible, WriteAsync, Request;
    var more := [DoWriteAsync(-1), DoRequest(true, 60, 0), DoWriteAsync(0)];
    AnsweredRuns(more);
    AnsweredShape();
    var s5 := Answered();
    WriteAsyncMoves(s5, -1);
    var s6 := Apply(s5, DoWriteAsync(-1));
    var s7 := Apply(s6, DoRequest(true, 60, 0));
    RequestQueued(s6, 60, 0);
    WriteAsyncMoves(s7, 0);
    var s8 := Apply(s7, DoWriteAsync(0));
    assert |s8.t.wire| == 2 && s8.t.wire[0].kind == Internal(Handshake) && s8.t.wire[1].kind == Resp;
    Unfold(s5, more);
    Unfold(s6, more[1..]);
    Unfold(s7, more[2..]);
    Unfold(s8, []);
    assert more[1..][1..] == more[2..] && more[2..][1..] == [];
  }

  lemma RequestQueued(s: Sys, timeout: int, now: int)
    requires s.t.conn == Done
    ensures var t := Request(s, true, timeout, now).t;
            && t.conn == Done && t.isWriting == s.t.isWriting && t.isConnecting == s.t.isConnecting
            && t.wire == s.t.wire && t.connPending == s.t.connPending
            && exists wi: Item :: wi.kind == Resp && t.writeWait == s.t.writeWait + [wi]
  {
  }

  /** A request sent once the handshake is done, and then a late connect request: the
      transport is connecting with application data in its write queue. */
  lemma LateConnectFails()
    ensures var run := [DoConnAsync(true, true), DoConnDone(true, true, true, 0), DoWriteAsync(0),
                        DoWriteDone(true), DoHandshakeResp(true, 0)]
                       + [DoRequest(true, 60, 0), DoConnAsync(true, true)];
            var s := After(Init(false), run);
            Possible(Init(false), run) && s.t.conn == Connecting && !Kinds(s)
  {
    hide Answered, After, Possible, Request;
    var more := [DoRequest(true, 60, 0), DoConnAsync(true, true)];
    AnsweredRuns(more);
    AnsweredShape();
    var s5 := Answered();
    RequestQueued(s5, 60, 0);
    var s6 := Apply(s5, DoRequest(true, 60, 0));
    var s7 := Apply(s6, DoConnAsync(true, true));
    assert s7.t.writeWait[1].kind == Resp && s7.t.conn == Connecting;
    Unfold(s5, more);
    Unfold(s6, more[1..]);
    Unfold(s7, []);
    assert more[1..][1..] == [];
  }
}
