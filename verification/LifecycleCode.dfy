/** The client and the TCP transport as objects whose queues are updated in place.
    Each method is one callback or critical section, with its loops, and is shown to
    take exactly the step of the same name in Lifecycle. */
module LifecycleCode {
  import opened Basics
  import opened Lifecycle
  import Spec = Lifecycle

  class ClientQueues {
    const polling: bool
    var requests: seq<Pending>
    var notifies: seq<Pending>
    var events: seq<Event>
    var seqNum: nat
    var reqIdSeq: nat
    var accepted: nat
    var called: seq<Call>

    ghost function Model(): Client
      reads this
    {
      Client(polling, requests, notifies, events, seqNum, reqIdSeq, accepted, called)
    }

    constructor (p: bool)
      ensures Model() == InitClient(p)
    {
      polling := p;
      requests, notifies, events, called := [], [], [], [];
      seqNum, reqIdSeq, accepted := 0, 1, 0;
    }

    /** The QUEUE_FOREACH search of pc__trans_resp and pc__trans_sent. */
    method Search(queue: seq<Pending>, key: Key) returns (i: nat)
      ensures i == IndexOf(queue, key)
    {
      i := 0;
      assert queue[0..] == queue;
      while i < |queue| && queue[i].key != key
        invariant 0 <= i <= |queue|
        invariant IndexOf(queue, key) == i + IndexOf(queue[i..], key)
      {
        assert queue[i..][1..] == queue[i + 1..];
        i := i + 1;
      }
    }

    /** pc__trans_resp for a request key, pc__trans_sent for a notify key. */
    method Deliver(key: Key, rc: int)
      modifies this
      ensures Model() == Spec.Deliver(old(Model()), key, rc)
    {
      match key
      case ReqKey(_) =>
        var i := Search(requests, key);
        if i < |requests| {
          var target := requests[i];
          requests := requests[..i] + requests[i + 1..];
          called := called + [Call(target.token, rc)];
        }
      case SeqKey(_) =>
        var i := Search(notifies, key);
        if i < |notifies| {
          var target := notifies[i];
          notifies := notifies[..i] + notifies[i + 1..];
          called := called + [Call(target.token, rc)];
        }
    }

    /** pc_trans_resp and pc_trans_sent. */
    method Report(key: Key, rc: int)
      modifies this
      ensures Model() == Spec.Report(old(Model()), key, rc)
    {
      if polling {
        events := events + [Event(key, rc)];
      } else {
        Deliver(key, rc);
      }
    }

    /** pc_client_poll. */
    method Poll() returns (ok: bool)
      modifies this
      ensures ok == polling
      ensures Model() == if polling then Spec.Poll(old(Model())) else old(Model())
    {
      if !polling {
        return false;
      }
      while events != []
        invariant Spec.Poll(Model()) == Spec.Poll(old(Model()))
        decreases |events|
      {
        var ev := events[0];
        events := events[1..];
        Deliver(ev.key, ev.rc);
      }
      ok := true;
    }
  }

  class TcpTransport {
    const client: ClientQueues
    var conn: Conn
    var isWriting: bool
    var isConnecting: bool
    var connPending: seq<Item>
    var writeWait: seq<Item>
    var writing: seq<Item>
    var respPending: seq<Item>
    var busy: seq<bool>
    var nextId: nat
    ghost var live: set<nat>
    ghost var wire: seq<Item>

    ghost function Model(): Trans
      reads this
    {
      Trans(conn, isWriting, isConnecting, connPending, writeWait, writing, respPending, busy, nextId, live, wire)
    }

    ghost function State(): Sys
      reads this, client
    {
      Sys(client.Model(), Model())
    }

    constructor (c: ClientQueues)
      ensures client == c && Model() == InitTrans()
    {
      client := c;
      conn, isWriting, isConnecting := NotConn, false, false;
      connPending, writeWait, writing, respPending := [], [], [], [];
      busy := seq(SLOTS, _ => false);
      nextId, live, wire := 0, {}, [];
    }

    /** The slot scan every producer of write items runs under the queue mutex. */
    method NewItem(kind: Kind, seqNum: nat, reqId: nat, timeout: int, now: int) returns (wi: Item)
      modifies this
      ensures wi == Spec.NewItem(old(Model()), kind, seqNum, reqId, timeout, now)
      ensures Model() == Allocate(old(Model()), wi)
    {
      var i := 0;
      assert busy[0..] == busy;
      while i < |busy| && busy[i]
        invariant 0 <= i <= |busy|
        invariant FirstIdle(busy) == i + FirstIdle(busy[i..])
      {
        assert busy[i..][1..] == busy[i + 1..];
        i := i + 1;
      }
      wi := Item(nextId, kind, seqNum, reqId, timeout, now, if i < |busy| then Some(i) else None);
      if i < |busy| {
        busy := busy[i := true];
      }
      live := live + {nextId};
      nextId := nextId + 1;
    }

    method Free(wi: Item)
      modifies this
      ensures Model() == Release(old(Model()), wi)
    {
      if wi.slot.Some? && wi.slot.value < |busy| {
        busy := busy[wi.slot.value := false];
      }
      live := live - {wi.id};
    }

    /** Acknowledges and frees an unlinked item, as tcp__reset_wi does. */
    method FinishItem(wi: Item, rc: int)
      modifies this, client
      ensures State() == Finish(old(State()), wi, rc)
    {
      if wi.kind.Resp? {
        client.Report(ReqKey(wi.reqId), rc);
      } else if wi.kind.Notify? {
        client.Report(SeqKey(wi.seqNum), rc);
      }
      Free(wi);
    }

    /** Empties the writing queue from its head, finishing each item. */
    method DrainWriting(rc: int)
      modifies this, client
      ensures State() == FinishAll(old(State().(t := Model().(writing := []))), old(writing), rc)
    {
      while writing != []
        invariant FinishAll(State().(t := Model().(writing := [])), writing, rc)
               == FinishAll(old(State().(t := Model().(writing := []))), old(writing), rc)
        decreases |writing|
      {
        var wi := writing[0];
        writing := writing[1..];
        FinishItem(wi, rc);
      }
    }

    method DrainResponses(rc: int)
      modifies this, client
      ensures State() == FinishAll(old(State().(t := Model().(respPending := []))), old(respPending), rc)
    {
      while respPending != []
        invariant FinishAll(State().(t := Model().(respPending := [])), respPending, rc)
               == FinishAll(old(State().(t := Model().(respPending := []))), old(respPending), rc)
        decreases |respPending|
      {
        var wi := respPending[0];
        respPending := respPending[1..];
        FinishItem(wi, rc);
      }
    }

    /** The two QUEUE_ADDs of tcp__reset: everything queued goes behind the writing
        queue first, because a callback may queue again. */
    method GatherWriting()
      modifies this
      ensures Model() == old(Model()).(writing := old(writing) + old(connPending) + old(writeWait),
                                       connPending := [], writeWait := [])
    {
      if connPending != [] {
        writing := writing + connPending;
        connPending := [];
      }
      if writeWait != [] {
        writing := writing + writeWait;
        writeWait := [];
      }
    }

    /** tcp__reset. */
    method Reset()
      modifies this, client
      ensures State() == Spec.Reset(old(State()))
    {
      hide FinishAll;
      conn := NotConn;
      wire := [];
      GatherWriting();
      DrainBoth(State(), writing, respPending, RC_RESET);
      DrainWriting(RC_RESET);
      DrainResponses(RC_RESET);
    }

    method Reconn(again: bool)
      modifies this, client
      ensures State() == Spec.Reconn(old(State()), again)
    {
      Reset();
      conn := if again then Connecting else NotConn;
    }

    /** tr_uv_tcp_send; `encoded` says whether the message could be encoded and framed. */
    method Send(encoded: bool, seqNum: nat, reqId: nat, timeout: int, now: int) returns (rc: int)
      modifies this
      ensures (rc == RC_OK) == SendAccepted(old(Model()), encoded)
      ensures rc != RC_OK ==>
                Model() == old(Model()) && rc == if old(conn) == NotConn then -9 else -1
      ensures rc == RC_OK ==> Model() == Spec.Send(old(Model()), seqNum, reqId, timeout, now)
    {
      if conn == NotConn {
        return RC_INVALID_STATE;
      }
      if !encoded {
        return RC_ERROR;
      }
      var wi := NewItem(if reqId == NOTIFY_PUSH_REQ_ID then Notify else Resp, seqNum, reqId, timeout, now);
      if conn == Done {
        writeWait := writeWait + [wi];
      } else {
        connPending := connPending + [wi];
      }
      rc := RC_OK;
    }

    /** pc_request_with_timeout past its argument checks: the entry is queued first and
        taken out again when the transport refuses the message. */
    method Request(encoded: bool, timeout: int, now: int) returns (rc: int)
      modifies this, client
      ensures State() == Spec.Request(old(State()), encoded, timeout, now)
      ensures (rc == RC_OK) == SendAccepted(old(Model()), encoded)
    {
      if client.reqIdSeq == NOTIFY_PUSH_REQ_ID || client.reqIdSeq == INVALID_REQ_ID {
        client.reqIdSeq := 1;
      }
      var id, seqNum := client.reqIdSeq, client.seqNum;
      client.reqIdSeq := (client.reqIdSeq + 1) % UINT;
      client.seqNum := (client.seqNum + 1) % UINT;
      client.requests := client.requests + [Pending(ReqKey(id), client.accepted)];
      rc := Send(encoded, seqNum, id, timeout, now);
      if rc != RC_OK {
        client.requests := client.requests[..|client.requests| - 1];
        assert client.requests == old(client.requests);
      } else {
        client.accepted := client.accepted + 1;
      }
    }

    /** pc_notify_with_timeout past its argument checks. */
    method NotifyCall(encoded: bool, timeout: int, now: int) returns (rc: int)
      modifies this, client
      ensures State() == Spec.NotifyCall(old(State()), encoded, timeout, now)
      ensures (rc == RC_OK) == SendAccepted(old(Model()), encoded)
    {
      var seqNum := client.seqNum;
      client.seqNum := (client.seqNum + 1) % UINT;
      client.notifies := client.notifies + [Pending(SeqKey(seqNum), client.accepted)];
      rc := Send(encoded, seqNum, NOTIFY_PUSH_REQ_ID, timeout, now);
      if rc != RC_OK {
        client.notifies := client.notifies[..|client.notifies| - 1];
        assert client.notifies == old(client.notifies);
      } else {
        client.accepted := client.accepted + 1;
      }
    }

    /** tcp__send_handshake, tcp__send_handshake_ack and tcp__send_heartbeat. */
    method AddInternal(frame: Frame, now: int)
      modifies this
      ensures Model() == Spec.AddInternal(old(Model()), frame, now)
    {
      var wi := NewItem(Internal(frame), INVALID_REQ_ID, INVALID_REQ_ID, WITHOUT_TIMEOUT, now);
      if frame.Heartbeat? {
        writeWait := writeWait + [wi];
      } else {
        writeWait := [wi] + writeWait;
      }
    }

    method ConnAsync(started: bool, again: bool)
      modifies this, client
      ensures State() == Spec.ConnAsync(old(State()), started, again)
    {
      if isConnecting {
        return;
      }
      conn := Connecting;
      if !started {
        Reconn(again);
        return;
      }
      isConnecting := true;
      wire := [];
    }

    method ConnDone(connected: bool, reading: bool, again: bool, now: int)
      requires isConnecting
      modifies this, client
      ensures State() == Spec.ConnDone(old(State()), connected, reading, again, now)
    {
      isConnecting := false;
      if connected {
        conn := Handshaking;
        if !reading {
          Reconn(again);
          return;
        }
        AddInternal(Handshake, now);
        return;
      }
      Reconn(again);
    }

    method HandshakeResp(accepted: bool, now: int)
      requires conn == Handshaking
      modifies this, client
      ensures State() == Spec.HandshakeResp(old(State()), accepted, now)
    {
      if !accepted {
        Reset();
        return;
      }
      AddInternal(HandshakeAck, now);
      conn := Done;
    }

    method HeartbeatTimer(now: int)
      requires conn == Done
      modifies this
      ensures Model() == Spec.AddInternal(old(Model()), Heartbeat, now)
    {
      AddInternal(Heartbeat, now);
    }

    /** Moves every item of conn_pending_queue behind write_wait_queue. */
    method MergePending()
      modifies this
      ensures Model() == old(Model()).(writeWait := old(writeWait) + old(connPending), connPending := [])
    {
      while connPending != []
        invariant Model() == old(Model()).(writeWait := writeWait, connPending := connPending)
        invariant writeWait + connPending == old(writeWait) + old(connPending)
        decreases |connPending|
      {
        var q := connPending[0];
        connPending := connPending[1..];
        writeWait := writeWait + [q];
      }
      assert writeWait + [] == writeWait;
    }

    /** tcp__write_async_cb. */
    method WriteAsync(ret: int)
      modifies this, client
      ensures State() == Spec.WriteAsync(old(State()), ret)
    {
      if conn == NotConn || isWriting {
        return;
      }
      if conn == Done {
        MergePending();
      }
      if writeWait == [] {
        return;
      }
      ghost var batch := writeWait;
      MoveToWriting();
      if ret != 0 {
        DrainWriting(ret);
        return;
      }
      isWriting := true;
      wire := wire + batch;
    }

    method MoveToWriting()
      modifies this
      ensures Model() == old(Model()).(writing := old(writing) + old(writeWait), writeWait := [])
    {
      while writeWait != []
        invariant Model() == old(Model()).(writing := writing, writeWait := writeWait)
        invariant writing + writeWait == old(writing) + old(writeWait)
        decreases |writeWait|
      {
        var q := writeWait[0];
        writeWait := writeWait[1..];
        writing := writing + [q];
      }
      assert writing + [] == writing;
    }

    /** tcp__write_done_cb. */
    method WriteDone(good: bool)
      requires isWriting
      modifies this, client
      ensures State() == Spec.WriteDone(old(State()), good)
    {
      isWriting := false;
      var status := if good then RC_OK else RC_ERROR;
      ghost var goal := Spec.WriteDone(old(State()), good);
      while writing != []
        invariant Written(State().(t := Model().(writing := [])), writing, status) == goal
        decreases |writing|
      {
        var wi := writing[0];
        writing := writing[1..];
        if status == RC_OK && wi.kind.Resp? {
          respPending := respPending + [wi];
        } else {
          FinishItem(wi, status);
        }
      }
    }

    /** tcp__check_queue_timeout on the items of one queue: those kept, in order, and
        whether the timer has to go on. */
    method CheckQueueTimeout(ql: seq<Item>, now: int, cont: bool) returns (kept: seq<Item>, goOn: bool)
      modifies this, client
      ensures kept == Select(ql, now, false)
      ensures State() == FinishAll(old(State()), Select(ql, now, true), RC_TIMEOUT)
      ensures goOn == (cont || AnyTimed(kept))
    {
      hide FinishAll, Select, AnyTimed;
      var rest := ql;
      kept, goOn := [], cont;
      NoneTimed();
      while rest != []
        invariant kept + Select(rest, now, false) == Select(ql, now, false)
        invariant FinishAll(State(), Select(rest, now, true), RC_TIMEOUT)
               == FinishAll(old(State()), Select(ql, now, true), RC_TIMEOUT)
        invariant goOn == (cont || AnyTimed(kept))
        decreases |rest|
      {
        SelectHead(rest, now);
        var wi := rest[0];
        rest := rest[1..];
        if wi.timeout != WITHOUT_TIMEOUT {
          if now > wi.ts + wi.timeout {
            FinishHead(State(), wi, Select(rest, now, true), RC_TIMEOUT);
            FinishItem(wi, RC_TIMEOUT);
            continue;
          } else {
            goOn := true;
          }
        }
        assert kept + ([wi] + Select(rest, now, false)) == kept + [wi] + Select(rest, now, false);
        AnyTimedAppend(kept, wi);
        kept := kept + [wi];
      }
      SelectNothing(now);
      assert kept + [] == kept;
    }

    /** tcp__write_check_timeout_cb. */
    method CheckTimeout(now: int) returns (again: bool)
      modifies this, client
      ensures State() == Spec.CheckTimeout(old(State()), now)
    {
      hide FinishAll, Select;
      var kept;
      ghost var s, q := State(), connPending;
      kept, again := CheckQueueTimeout(connPending, now, false);
      KeepPending(s, kept, Select(q, now, true), RC_TIMEOUT);
      connPending := kept;
      s, q := State(), writeWait;
      kept, again := CheckQueueTimeout(writeWait, now, again);
      KeepWaiting(s, kept, Select(q, now, true), RC_TIMEOUT);
      writeWait := kept;
      s, q := State(), respPending;
      kept, again := CheckQueueTimeout(respPending, now, again);
      KeepResponses(s, kept, Select(q, now, true), RC_TIMEOUT);
      respPending := kept;
    }

    /** tcp__on_data_recieved for a response. */
    method Response(reqId: nat)
      modifies this, client
      ensures State() == Spec.Response(old(State()), reqId)
    {
      client.Report(ReqKey(reqId), RC_OK);
      var i := 0;
      assert respPending[0..] == respPending;
      while i < |respPending| && respPending[i].reqId != reqId
        invariant 0 <= i <= |respPending|
        invariant IndexOfItem(respPending, reqId) == i + IndexOfItem(respPending[i..], reqId)
      {
        assert respPending[i..][1..] == respPending[i + 1..];
        i := i + 1;
      }
      if i < |respPending| {
        var wi := respPending[i];
        respPending := respPending[..i] + respPending[i + 1..];
        Free(wi);
      }
    }
  }

  predicate AnyTimed(items: seq<Item>) {
    exists i :: 0 <= i < |items| && items[i].timeout != WITHOUT_TIMEOUT
  }

  lemma NoneTimed()
    ensures !AnyTimed([])
  {}

  lemma AnyTimedAppend(items: seq<Item>, wi: Item)
    ensures AnyTimed(items + [wi]) == (AnyTimed(items) || wi.timeout != WITHOUT_TIMEOUT)
  {
    assert (items + [wi])[|items|] == wi;
    assert forall i :: 0 <= i < |items| ==> (items + [wi])[i] == items[i];
  }

  lemma SelectNothing(now: int)
    ensures Select([], now, true) == [] && Select([], now, false) == []
    ensures forall s: Sys :: FinishAll(s, [], RC_TIMEOUT) == s
  {}

  lemma FinishHead(s: Sys, wi: Item, rest: seq<Item>, rc: int)
    ensures FinishAll(s, [wi] + rest, rc) == FinishAll(Finish(s, wi, rc), rest, rc)
  {
    assert ([wi] + rest)[1..] == rest;
  }

  lemma SelectHead(items: seq<Item>, now: int)
    requires items != []
    ensures forall e: bool :: Select(items, now, e) ==
              if Expired(items[0], now) == e then [items[0]] + Select(items[1..], now, e)
              else Select(items[1..], now, e)
  {}

  lemma {:induction false} FinishAllConcat(s: Sys, a: seq<Item>, b: seq<Item>, rc: int)
    ensures FinishAll(s, a + b, rc) == FinishAll(FinishAll(s, a, rc), b, rc)
    decreases a
  {
    if a == [] {
      assert a + b == b;
    } else {
      assert (a + b)[0] == a[0] && (a + b)[1..] == a[1..] + b;
      FinishAllConcat(Finish(s, a[0], rc), a[1..], b, rc);
    }
  }

  lemma DrainBoth(s: Sys, w: seq<Item>, r: seq<Item>, rc: int)
    requires w == s.t.writing && r == s.t.respPending
    ensures var x := FinishAll(s.(t := s.t.(writing := [])), w, rc);
            && x.t.respPending == r
            && FinishAll(x.(t := x.t.(respPending := [])), r, rc)
               == FinishAll(s.(t := s.t.(writing := [], respPending := [])), w + r, rc)
  {
    FinishAllFrame(s.(t := s.t.(writing := [])), s.(t := s.t.(writing := [], respPending := [])), w, rc);
    FinishAllConcat(s.(t := s.t.(writing := [], respPending := [])), w, r, rc);
    hide FinishAll;
  }

  lemma KeepPending(s: Sys, kept: seq<Item>, items: seq<Item>, rc: int)
    ensures var x := FinishAll(s, items, rc);
            && x.(t := x.t.(connPending := kept)) == FinishAll(s.(t := s.t.(connPending := kept)), items, rc)
            && x.t.connPending == s.t.connPending
  {
    FinishAllFrame(s, s.(t := s.t.(connPending := kept)), items, rc);
    hide FinishAll;
  }

  lemma KeepWaiting(s: Sys, kept: seq<Item>, items: seq<Item>, rc: int)
    ensures var x := FinishAll(s, items, rc);
            && x.(t := x.t.(writeWait := kept)) == FinishAll(s.(t := s.t.(writeWait := kept)), items, rc)
            && x.t.writeWait == s.t.writeWait
  {
    FinishAllFrame(s, s.(t := s.t.(writeWait := kept)), items, rc);
    hide FinishAll;
  }

  lemma KeepResponses(s: Sys, kept: seq<Item>, items: seq<Item>, rc: int)
    ensures var x := FinishAll(s, items, rc);
            && x.(t := x.t.(respPending := kept)) == FinishAll(s.(t := s.t.(respPending := kept)), items, rc)
            && x.t.respPending == s.t.respPending
  {
    FinishAllFrame(s, s.(t := s.t.(respPending := kept)), items, rc);
    hide FinishAll;
  }

  /** Finishing items does not look at the queues. */
  lemma {:induction false} FinishAllFrame(s: Sys, r: Sys, items: seq<Item>, rc: int)
    requires r.c == s.c
    requires s.t == r.t.(connPending := s.t.connPending, writeWait := s.t.writeWait,
                         writing := s.t.writing, respPending := s.t.respPending)
    ensures var x, y := FinishAll(s, items, rc), FinishAll(r, items, rc);
            && y.c == x.c
            && x.t == y.t.(connPending := s.t.connPending, writeWait := s.t.writeWait,
                           writing := s.t.writing, respPending := s.t.respPending)
            && y.t == x.t.(connPending := r.t.connPending, writeWait := r.t.writeWait,
                           writing := r.t.writing, respPending := r.t.respPending)
    decreases items
  {
    if items != [] {
      FinishAllFrame(Finish(s, items[0], rc), Finish(r, items[0], rc), items[1..], rc);
    }
  }
}
