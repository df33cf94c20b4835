/** When requests and notifies go out in the order in which they were accepted. */
module LifecycleFifo {
  import opened Lifecycle
  import opened LifecycleOrder
  import opened LifecycleRuns

  /** The requests and notifies of a line stand in the order in which they were made;
      an item's identity counts upwards. */
  ghost predicate Ranked(line: seq<Item>, bound: nat) {
    && (forall i :: 0 <= i < |line| && !line[i].kind.Internal? ==> line[i].id < bound)
    && (forall i, j :: 0 <= i < j < |line| && !line[i].kind.Internal? && !line[j].kind.Internal? ==>
        line[i].id < line[j].id)
  }

  /** What went out on this socket did so in the order in which it was accepted. */
  ghost predicate InSequence(s: Sys) {
    exists bound: nat :: Ranked(s.t.wire, bound)
  }

  /** A request or notify sent once the handshake is done, while older ones are still
      in conn_pending_queue. */
  ghost predicate Overtakes(s: Sys, e: Step) {
    && s.t.conn == Done && s.t.connPending != []
    && match e
       case DoRequest(encoded, _, _) => encoded
       case DoNotify(encoded, _, _) => encoded
       case _ => false
  }

  /** Everything sent on this socket and what will go out behind it. */
  function Queue(t: Trans): seq<Item> {
    t.wire + t.writeWait + t.connPending
  }

  ghost predicate Fifo(t: Trans) {
    && Ranked(Queue(t), t.nextId)
    && forall i :: 0 <= i < |t.connPending| ==> !t.connPending[i].kind.Internal?
  }

  // ---- Lines

  lemma RankedPart(a: seq<Item>, b: seq<Item>, c: seq<Item>, bound: nat)
    requires Ranked(a + b + c, bound)
    ensures Ranked(a + c, bound)
  {
    var whole, part := a + b + c, a + c;
    assert forall i :: 0 <= i < |part| ==> part[i] == whole[if i < |a| then i else i + |b|];
  }

  lemma RankedPrefix(a: seq<Item>, b: seq<Item>, bound: nat)
    requires Ranked(a + b, bound)
    ensures Ranked(a, bound) && Ranked(b, bound)
  {
    assert forall i :: 0 <= i < |a| ==> (a + b)[i] == a[i];
    assert forall i :: 0 <= i < |b| ==> (a + b)[|a| + i] == b[i];
  }

  lemma RankedInternal(a: seq<Item>, wi: Item, c: seq<Item>, bound: nat, more: nat)
    requires Ranked(a + c, bound) && wi.kind.Internal? && bound <= more
    ensures Ranked(a + [wi] + c, more)
  {
    var whole, part := a + [wi] + c, a + c;
    assert forall i :: 0 <= i < |whole| && i != |a| ==> whole[i] == part[if i < |a| then i else i - 1];
  }

  /** A new item may stand in front of `c` exactly when nothing older is in there. */
  lemma RankedNewIff(a: seq<Item>, wi: Item, c: seq<Item>, bound: nat)
    requires Ranked(a + c, bound) && wi.id == bound && !wi.kind.Internal?
    requires forall i :: 0 <= i < |c| ==> !c[i].kind.Internal?
    ensures Ranked(a + [wi] + c, bound + 1) <==> c == []
  {
    var whole, part := a + [wi] + c, a + c;
    assert forall i :: 0 <= i < |whole| && i != |a| ==> whole[i] == part[if i < |a| then i else i - 1];
    if c != [] {
      assert whole[|a|] == wi && whole[|a| + 1] == c[0] == part[|a|];
    }
  }

  lemma {:induction false} RankedSelect(a: seq<Item>, b: seq<Item>, c: seq<Item>, now: int, bound: nat)
    requires Ranked(a + b + c, bound)
    ensures Ranked(a + Select(b, now, false) + c, bound)
    decreases b
  {
    hide Ranked;
    if b != [] {
      assert a + b + c == a + [b[0]] + b[1..] + c == a + [b[0]] + (b[1..] + c);
      if Expired(b[0], now) {
        RankedPart(a, [b[0]], b[1..] + c, bound);
        assert a + (b[1..] + c) == a + b[1..] + c;
        RankedSelect(a, b[1..], c, now, bound);
        assert [] + Select(b[1..], now, false) == Select(b[1..], now, false);
      } else {
        RankedSelect(a + [b[0]], b[1..], c, now, bound);
        assert a + ([b[0]] + Select(b[1..], now, false)) + c == a + [b[0]] + Select(b[1..], now, false) + c;
      }
    }
  }

  // ---- Every step

  lemma SendFifoIff(t: Trans, seqNum: nat, reqId: nat, timeout: int, now: int)
    requires Fifo(t)
    ensures Fifo(Send(t, seqNum, reqId, timeout, now)) <==> t.conn != Done || t.connPending == []
  {
    hide Ranked;
    var kind := if reqId == NOTIFY_PUSH_REQ_ID then Notify else Resp;
    var wi := NewItem(t, kind, seqNum, reqId, timeout, now);
    var u := Send(t, seqNum, reqId, timeout, now);
    var a := t.wire + t.writeWait;
    if t.conn == Done {
      RankedNewIff(a, wi, t.connPending, t.nextId);
      assert Queue(u) == a + [wi] + t.connPending;
    } else {
      assert Queue(t) + [] == Queue(t);
      RankedNewIff(Queue(t), wi, [], t.nextId);
      assert Queue(u) == Queue(t) + [wi] + [];
    }
  }

  lemma AddedFifo(t: Trans, frame: Frame, now: int)
    requires Fifo(t)
    ensures Fifo(AddInternal(t, frame, now))
  {
    hide Ranked;
    var wi := NewItem(t, Internal(frame), INVALID_REQ_ID, INVALID_REQ_ID, WITHOUT_TIMEOUT, now);
    var u := AddInternal(t, frame, now);
    if frame.Heartbeat? {
      RankedInternal(t.wire + t.writeWait, wi, t.connPending, t.nextId, u.nextId);
      assert Queue(u) == t.wire + t.writeWait + [wi] + t.connPending;
    } else {
      assert Queue(t) == t.wire + (t.writeWait + t.connPending);
      RankedInternal(t.wire, wi, t.writeWait + t.connPending, t.nextId, u.nextId);
      assert Queue(u) == t.wire + [wi] + (t.writeWait + t.connPending);
    }
  }

  lemma EmptyFifo(t: Trans)
    ensures t.wire == [] && t.writeWait == [] && t.connPending == [] ==> Fifo(t)
  {
  }

  lemma ResetFifo(s: Sys, again: bool)
    ensures Fifo(Reset(s).t) && Fifo(Reconn(s, again).t)
  {
    hide Reset, Fifo;
    ResetEmpties(s);
    EmptyFifo(Reset(s).t);
    EmptyFifo(Reconn(s, again).t);
  }

  lemma ConnAsyncFifo(s: Sys, started: bool, again: bool)
    requires Fifo(s.t)
    ensures Fifo(ConnAsync(s, started, again).t)
  {
    hide Reconn, Ranked;
    ResetFifo(s.(t := s.t.(conn := Connecting)), again);
    assert Queue(s.t) == s.t.wire + (s.t.writeWait + s.t.connPending);
    RankedPrefix(s.t.wire, s.t.writeWait + s.t.connPending, s.t.nextId);
    assert [] + s.t.writeWait == s.t.writeWait;
  }

  lemma ConnDoneFifo(s: Sys, connected: bool, reading: bool, again: bool, now: int)
    requires Fifo(s.t)
    ensures Fifo(ConnDone(s, connected, reading, again, now).t)
  {
    hide Reconn, Ranked, AddInternal;
    var t := s.t.(isConnecting := false);
    ResetFifo(s.(t := t), again);
    ResetFifo(s.(t := t.(conn := Handshaking)), again);
    AddedFifo(t.(conn := Handshaking), Handshake, now);
  }

  lemma HandshakeRespFifo(s: Sys, accepted: bool, now: int)
    requires Fifo(s.t)
    ensures Fifo(HandshakeResp(s, accepted, now).t)
  {
    hide Reset, Ranked, AddInternal;
    ResetFifo(s, false);
    AddedFifo(s.t, HandshakeAck, now);
  }

  lemma WriteAsyncFifo(s: Sys, ret: int)
    requires Fifo(s.t)
    ensures Fifo(WriteAsync(s, ret).t)
  {
    hide WriteAsync, Ranked;
    WriteAsyncMoves(s, ret);
    var m := Merged(s.t);
    assert Queue(m) == Queue(s.t);
    RankedPart(m.wire, m.writeWait, m.connPending, m.nextId);
    assert m.wire + [] + m.connPending == m.wire + m.connPending && m.wire + m.writeWait + [] == m.wire + m.writeWait;
  }

  lemma SweptFifo(s: Sys, now: int)
    requires Fifo(s.t)
    ensures Fifo(CheckTimeout(s, now).t)
  {
    hide CheckTimeout, Ranked, Select;
    SweepMoves(s, now);
    var t, u := s.t, CheckTimeout(s, now).t;
    RankedSelect(t.wire, t.writeWait, t.connPending, now, t.nextId);
    assert t.wire + u.writeWait + t.connPending == t.wire + u.writeWait + t.connPending + [];
    RankedSelect(t.wire + u.writeWait, t.connPending, [], now, t.nextId);
    assert Queue(u) == t.wire + u.writeWait + u.connPending + [];
    SelectKeepsKind(t.connPending, now);
  }

  lemma FifoStepIff(s: Sys, e: Step)
    requires Fifo(s.t)
    ensures Fifo(Apply(s, e).t) <==> !Overtakes(s, e)
  {
    hide Ranked, WriteAsync, WriteDone, CheckTimeout, Report, Reset, Reconn, ConnDone, ConnAsync, HandshakeResp;
    hide Poll, Send, AddInternal, Resps;
    match e
    case DoRequest(encoded, timeout, now) => SendFifoIff(s.t, s.c.seqNum, NextReqId(s.c), timeout, now);
    case DoNotify(encoded, timeout, now) => SendFifoIff(s.t, s.c.seqNum, NOTIFY_PUSH_REQ_ID, timeout, now);
    case DoConnAsync(started, again) => ConnAsyncFifo(s, started, again);
    case DoConnDone(connected, reading, again, now) => ConnDoneFifo(s, connected, reading, again, now);
    case DoHandshakeResp(accepted, now) => HandshakeRespFifo(s, accepted, now);
    case DoHeartbeatTimer(now) => AddedFifo(s.t, Heartbeat, now);
    case DoWriteAsync(ret) => WriteAsyncFifo(s, ret);
    case DoWriteDone(good) => WriteDoneMoves(s, good);
    case DoCheckTimeout(now) => SweptFifo(s, now);
    case DoReset => ResetFifo(s, false);
    case DoReconn(again) => ResetFifo(s, again);
    case _ =>
  }

  // ---- Runs

  lemma FifoInSequence(s: Sys)
    requires Fifo(s.t)
    ensures InSequence(s)
  {
    hide Ranked;
    assert Queue(s.t) == s.t.wire + (s.t.writeWait + s.t.connPending);
    RankedPrefix(s.t.wire, s.t.writeWait + s.t.connPending, s.t.nextId);
  }

  /** Nothing that may still happen, short of overtaking, puts the order wrong. */
  ghost predicate SequenceHolds(s: Sys) {
    forall more :: Without(s, more, Overtakes) ==> InSequence(After(s, more))
  }

  lemma {:induction false} FifoRun(s: Sys, run: seq<Step>)
    requires Fifo(s.t) && Without(s, run, Overtakes)
    ensures Fifo(After(s, run).t)
    decreases run
  {
    hide Fifo, Overtakes, Apply;
    if run != [] {
      FifoStepIff(s, run[0]);
      FifoRun(Apply(s, run[0]), run[1..]);
    }
  }

  lemma FifoHolds(s: Sys)
    requires Fifo(s.t)
    ensures SequenceHolds(s)
  {
    hide Fifo, Overtakes, After, InSequence, Without;
    forall more | Without(s, more, Overtakes)
      ensures InSequence(After(s, more))
    {
      FifoRun(s, more);
      FifoInSequence(After(s, more));
    }
  }

  lemma OvertakenBreaks(s: Sys, u: Sys, wi: Item)
    requires Fifo(s.t) && s.t.conn == Done && s.t.connPending != [] && !wi.kind.Internal? && wi.id == s.t.nextId
    requires u.t.conn == Done && u.t.wire == s.t.wire
    requires u.t.writeWait == s.t.writeWait + [wi] && u.t.connPending == s.t.connPending
    ensures !SequenceHolds(u)
  {
    hide Without, After, Possible;
    FlushWrites(u, Overtakes);
    var v := After(u, Flush(u));
    var first := s.t.connPending[0];
    var k := |s.t.wire + s.t.writeWait|;
    assert v.t.wire[k] == wi && v.t.wire[k + 1] == first;
    assert Queue(s.t)[k] == first;
    assert forall bound: nat :: !Ranked(v.t.wire, bound);
    assert !InSequence(v);
  }

  lemma SequenceStepIff(s: Sys, e: Step)
    requires Fifo(s.t)
    ensures SequenceHolds(Apply(s, e)) <==> !Overtakes(s, e)
  {
    hide SequenceHolds, Fifo, FirstIdle;
    if Overtakes(s, e) {
      match e
      case DoRequest(encoded, timeout, now) =>
        OvertakenBreaks(s, Apply(s, e), NewItem(s.t, Resp, s.c.seqNum, NextReqId(s.c), timeout, now));
      case DoNotify(encoded, timeout, now) =>
        OvertakenBreaks(s, Apply(s, e), NewItem(s.t, Notify, s.c.seqNum, NOTIFY_PUSH_REQ_ID, timeout, now));
      case _ =>
    } else {
      FifoStepIff(s, e);
      FifoHolds(Apply(s, e));
    }
  }

  lemma {:induction false} SequenceRunIff(s: Sys, run: seq<Step>)
    requires Fifo(s.t)
    ensures Throughout(s, run, SequenceHolds) <==> Without(s, run, Overtakes)
    decreases run
  {
    hide SequenceHolds, Fifo, Overtakes, Apply, Throughout, Without;
    UnfoldLaws(s, run, SequenceHolds, Overtakes);
    FifoHolds(s);
    if run != [] {
      SequenceStepIff(s, run[0]);
      FifoStepIff(s, run[0]);
      UnfoldLaws(Apply(s, run[0]), run[1..], SequenceHolds, Overtakes);
      if !Overtakes(s, run[0]) {
        SequenceRunIff(Apply(s, run[0]), run[1..]);
      }
    }
  }

  /** Whatever the steps, requests and notifies go out in the order in which they were
      accepted exactly as long as none is sent between the end of the handshake and the
      moment the pending ones are moved. */
  lemma SentInSequenceIff(polling: bool, run: seq<Step>)
    ensures Throughout(Init(polling), run, SequenceHolds) <==> Without(Init(polling), run, Overtakes)
  {
    EmptyFifo(Init(polling).t);
    SequenceRunIff(Init(polling), run);
  }

  /** A request made while connecting, and the handshake done. */
  function Connected(): Sys {
    var s := Apply(Apply(Init(false), DoConnAsync(true, true)), DoRequest(true, 60, 0));
    Apply(Apply(s, DoConnDone(true, true, true, 0)), DoHandshakeResp(true, 0))
  }

  lemma ConnectedShape()
    ensures var t := Connected().t;
            && t.conn == Done && !t.isWriting && |t.connPending| == 1
            && t.connPending[0].kind == Resp && t.connPending[0].id < t.nextId
  {
    hide AddInternal;
    var s1 := Apply(Init(false), DoConnAsync(true, true));
    var s2 := Apply(s1, DoRequest(true, 60, 0));
    assert |s2.t.connPending| == 1 && s2.t.connPending[0].kind == Resp && s2.t.connPending[0].id == 0
        && s2.t.nextId == 1;
    hide Request;
    AddedCounts(s2.t.(isConnecting := false, conn := Handshaking), Handshake, 0);
    var s3 := Apply(s2, DoConnDone(true, true, true, 0));
    AddedCounts(s3.t, HandshakeAck, 0);
  }

  lemma AddedCounts(t: Trans, frame: Frame, now: int)
    ensures var u := AddInternal(t, frame, now);
            && u.nextId == t.nextId + 1 && u.connPending == t.connPending && u.conn == t.conn
            && u.isWriting == t.isWriting
  {
  }

  lemma ConnectedPossible()
    ensures var s1 := Apply(Init(false), DoConnAsync(true, true));
            var s2 := Apply(s1, DoRequest(true, 60, 0));
            && Enabled(Init(false), DoConnAsync(true, true)) && Enabled(s1, DoRequest(true, 60, 0))
            && Enabled(s2, DoConnDone(true, true, true, 0))
            && Enabled(Apply(s2, DoConnDone(true, true, true, 0)), DoHandshakeResp(true, 0))
  {
    hide FirstIdle;
    var s1 := Apply(Init(false), DoConnAsync(true, true));
    var s2 := Apply(s1, DoRequest(true, 60, 0));
    AddedCounts(s2.t.(isConnecting := false, conn := Handshaking), Handshake, 0);
  }

  lemma ConnectedRuns(more: seq<Step>)
    ensures var run := [DoConnAsync(true, true), DoRequest(true, 60, 0), DoConnDone(true, true, true, 0),
                        DoHandshakeResp(true, 0)];
            && (Possible(Init(false), run + more) <==> Possible(Connected(), more))
            && After(Init(false), run + more) == After(Connected(), more)
  {
    ConnectedPossible();
    hide Apply, After, Possible, Enabled;
    var s0 := Init(false);
    var s1 := Apply(s0, DoConnAsync(true, true));
    var s2 := Apply(s1, DoRequest(true, 60, 0));
    var s3 := Apply(s2, DoConnDone(true, true, true, 0));
    var run := [DoConnAsync(true, true), DoRequest(true, 60, 0), DoConnDone(true, true, true, 0),
                DoHandshakeResp(true, 0)] + more;
    Unfold(s0, run);
    Unfold(s1, run[1..]);
    Unfold(s2, run[2..]);
    Unfold(s3, run[3..]);
    assert run[4..] == more;
  }

  /** A request made while connecting is overtaken by a notify made right after the
      handshake. */
  lemma OvertakenFails()
    ensures var run := [DoConnAsync(true, true), DoRequest(true, 60, 0), DoConnDone(true, true, true, 0),
                        DoHandshakeResp(true, 0)]
                       + [DoNotify(true, 60, 0), DoWriteAsync(0)];
            Possible(Init(false), run) && !InSequence(After(Init(false), run))
  {
    hide Connected, After, Possible, WriteAsync, NotifyCall, InSequence;
    ConnectedShape();
    var s := Connected();
    ConnectedRuns([DoNotify(true, 60, 0), DoWriteAsync(0)]);
    TwoSteps(s, DoNotify(true, 60, 0), DoWriteAsync(0), Overtakes);
    OutOfSequence(s, NotifyCall(s, true, 60, 0));
  }

  lemma OutOfSequence(s: Sys, u: Sys)
    requires s.t.conn == Done && !s.t.isWriting && s.t.connPending != [] && !s.t.connPending[0].kind.Internal?
    requires s.t.connPending[0].id < s.t.nextId && u == NotifyCall(s, true, 60, 0)
    ensures !InSequence(WriteAsync(u, 0))
  {
    hide WriteAsync;
    WriteAsyncMoves(u, 0);
    var v := WriteAsync(u, 0);
    var k := |s.t.wire + s.t.writeWait|;
    assert v.t.wire[k].id == s.t.nextId && v.t.wire[k + 1] == s.t.connPending[0];
    assert forall bound: nat :: !Ranked(v.t.wire, bound);
  }
}
