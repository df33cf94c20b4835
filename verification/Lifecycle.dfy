/** The life of a request or notify between the client's queues and the transport's
    four write queues, as values: one function per callback or critical section of
    the TCP transport, each an atomic step. */
module Lifecycle {
  import opened Basics

  // ---- State

  /** What an internal write item carries. */
  datatype Frame = Handshake | HandshakeAck | Heartbeat

  datatype Kind = Notify | Resp | Internal(frame: Frame)

  /** tr_uv_wi_t.  `id` stands for the item's identity; `slot` is its place among the
      preallocated items, None for one allocated dynamically. */
  datatype Item = Item(id: nat, kind: Kind, seqNum: nat, reqId: nat, timeout: int, ts: int, slot: Option<nat>)

  datatype Conn = NotConn | Connecting | Handshaking | Done

  /** PC_PRE_ALLOC_NOTIFY_SLOT_COUNT + PC_PRE_ALLOC_REQUEST_SLOT_COUNT + 1. */
  const SLOTS: nat := 9

  const RC_OK := 0
  const RC_ERROR := -1
  const RC_TIMEOUT := -2
  const RC_INVALID_STATE := -9
  const RC_RESET := -11
  const WITHOUT_TIMEOUT := -1
  const NOTIFY_PUSH_REQ_ID: nat := 0
  const INVALID_REQ_ID: nat := 0xFFFF_FFFF
  const UINT: nat := 0x1_0000_0000

  /** The transport.  `live` and `wire` are history: the items allocated and not yet
      released, and what uv_write has accepted for the socket in use. */
  datatype Trans = Trans(
    conn: Conn, isWriting: bool, isConnecting: bool,
    connPending: seq<Item>, writeWait: seq<Item>, writing: seq<Item>, respPending: seq<Item>,
    busy: seq<bool>, nextId: nat, live: set<nat>, wire: seq<Item>)

  /** How the transport names a client's entry: a request by its id, a notify by its
      sequence number. */
  datatype Key = ReqKey(reqId: nat) | SeqKey(seqNum: nat)

  /** An accepted request or notify waiting for its callback; `token` numbers the
      accepted calls. */
  datatype Pending = Pending(key: Key, token: nat)

  /** A queued event of polling mode. */
  datatype Event = Event(key: Key, rc: int)

  /** A callback that has run. */
  datatype Call = Call(token: nat, rc: int)

  datatype Client = Client(
    polling: bool, requests: seq<Pending>, notifies: seq<Pending>, events: seq<Event>,
    seqNum: nat, reqIdSeq: nat, accepted: nat, called: seq<Call>)

  datatype Sys = Sys(c: Client, t: Trans)

  function InitTrans(): Trans {
    Trans(NotConn, false, false, [], [], [], [], seq(SLOTS, _ => false), 0, {}, [])
  }

  function InitClient(polling: bool): Client {
    Client(polling, [], [], [], 0, 1, 0, [])
  }

  // ---- The client side: pc_trans.c and pc_client_poll

  /** Position of the first entry with this key, or the length. */
  function IndexOf(ps: seq<Pending>, key: Key): (i: nat)
    ensures i <= |ps|
    ensures i < |ps| ==> ps[i].key == key
    ensures forall j :: 0 <= j < i ==> ps[j].key != key
  {
    if ps == [] || ps[0].key == key then 0 else 1 + IndexOf(ps[1..], key)
  }

  function RemoveAt<T>(s: seq<T>, i: nat): seq<T>
    requires i < |s|
  {
    s[..i] + s[i + 1..]
  }

  /** pc__trans_resp and pc__trans_sent: unlink the entry and run its callback; an
      unknown key is only logged. */
  function Deliver(c: Client, key: Key, rc: int): Client {
    if key.ReqKey? then
      var i := IndexOf(c.requests, key);
      if i == |c.requests| then c
      else c.(requests := RemoveAt(c.requests, i), called := c.called + [Call(c.requests[i].token, rc)])
    else
      var i := IndexOf(c.notifies, key);
      if i == |c.notifies| then c
      else c.(notifies := RemoveAt(c.notifies, i), called := c.called + [Call(c.notifies[i].token, rc)])
  }

  /** pc_trans_resp and pc_trans_sent. */
  function Report(c: Client, key: Key, rc: int): Client {
    if c.polling then c.(events := c.events + [Event(key, rc)]) else Deliver(c, key, rc)
  }

  /** pc_client_poll: drains the event queue in order. */
  function Poll(c: Client): (r: Client)
    decreases |c.events|
  {
    if c.events == [] then c
    else Poll(Deliver(c.(events := c.events[1..]), c.events[0].key, c.events[0].rc))
  }

  // ---- Write items

  function FirstIdle(busy: seq<bool>): (i: nat)
    ensures i <= |busy|
    ensures i < |busy| ==> !busy[i]
    ensures forall j :: 0 <= j < i ==> busy[j]
  {
    if busy == [] || !busy[0] then 0 else 1 + FirstIdle(busy[1..])
  }

  /** The first idle preallocated slot, or a dynamic item when all are busy. */
  function NewItem(t: Trans, kind: Kind, seqNum: nat, reqId: nat, timeout: int, now: int): Item {
    var i := FirstIdle(t.busy);
    Item(t.nextId, kind, seqNum, reqId, timeout, now, if i < |t.busy| then Some(i) else None)
  }

  function Allocate(t: Trans, wi: Item): Trans {
    t.(busy := if wi.slot.Some? && wi.slot.value < |t.busy| then t.busy[wi.slot.value := true] else t.busy,
       nextId := t.nextId + 1, live := t.live + {wi.id})
  }

  function Release(t: Trans, wi: Item): Trans {
    t.(busy := if wi.slot.Some? && wi.slot.value < |t.busy| then t.busy[wi.slot.value := false] else t.busy,
       live := t.live - {wi.id})
  }

  function KeyOf(wi: Item): Key {
    if wi.kind.Resp? then ReqKey(wi.reqId) else SeqKey(wi.seqNum)
  }

  /** The end of an item that was unlinked: its owner is told, internal items are
      dropped, and the item is freed or its slot set idle. */
  function Finish(s: Sys, wi: Item, rc: int): Sys {
    Sys(if wi.kind.Internal? then s.c else Report(s.c, KeyOf(wi), rc), Release(s.t, wi))
  }

  function FinishAll(s: Sys, items: seq<Item>, rc: int): Sys
    decreases items
  {
    if items == [] then s else FinishAll(Finish(s, items[0], rc), items[1..], rc)
  }

  // ---- Steps of the transport

  /** tcp__reset. */
  function Reset(s: Sys): Sys {
    var all := s.t.writing + s.t.connPending + s.t.writeWait + s.t.respPending;
    FinishAll(s.(t := s.t.(conn := NotConn, connPending := [], writeWait := [], writing := [], respPending := [],
                           wire := [])),
              all, RC_RESET)
  }

  /** tcp__reconn; `again` is false when reconnecting is disabled or used up. */
  function Reconn(s: Sys, again: bool): Sys {
    var r := Reset(s);
    r.(t := r.t.(conn := if again then Connecting else NotConn))
  }

  /** tr_uv_tcp_send, without its return code: refused when there is no connection or
      the message cannot be encoded. */
  predicate SendAccepted(t: Trans, encoded: bool) {
    t.conn != NotConn && encoded
  }

  function Send(t: Trans, seqNum: nat, reqId: nat, timeout: int, now: int): Trans {
    var wi := NewItem(t, if reqId == NOTIFY_PUSH_REQ_ID then Notify else Resp, seqNum, reqId, timeout, now);
    var a := Allocate(t, wi);
    if t.conn == Done then a.(writeWait := a.writeWait + [wi])
    else a.(connPending := a.connPending + [wi])
  }

  /** The request id drawn by pc_request_with_timeout: 0 and 2^32-1 are skipped. */
  function NextReqId(c: Client): (id: nat)
    ensures c.reqIdSeq < UINT ==> 0 < id < INVALID_REQ_ID
  {
    if c.reqIdSeq == NOTIFY_PUSH_REQ_ID || c.reqIdSeq == INVALID_REQ_ID then 1 else c.reqIdSeq
  }

  /** pc_request_with_timeout past its argument checks. */
  function Request(s: Sys, encoded: bool, timeout: int, now: int): Sys {
    var id := NextReqId(s.c);
    var c := s.c.(seqNum := (s.c.seqNum + 1) % UINT, reqIdSeq := (id + 1) % UINT);
    if SendAccepted(s.t, encoded) then
      Sys(c.(requests := c.requests + [Pending(ReqKey(id), c.accepted)], accepted := c.accepted + 1),
          Send(s.t, s.c.seqNum, id, timeout, now))
    else
      Sys(c, s.t)
  }

  /** pc_notify_with_timeout past its argument checks. */
  function NotifyCall(s: Sys, encoded: bool, timeout: int, now: int): Sys {
    var c := s.c.(seqNum := (s.c.seqNum + 1) % UINT);
    if SendAccepted(s.t, encoded) then
      Sys(c.(notifies := c.notifies + [Pending(SeqKey(s.c.seqNum), c.accepted)], accepted := c.accepted + 1),
          Send(s.t, s.c.seqNum, NOTIFY_PUSH_REQ_ID, timeout, now))
    else
      Sys(c, s.t)
  }

  /** An internal item: handshake and its ack go to the head of the queue, a
      heartbeat to its tail. */
  function AddInternal(t: Trans, frame: Frame, now: int): Trans {
    var wi := NewItem(t, Internal(frame), INVALID_REQ_ID, INVALID_REQ_ID, WITHOUT_TIMEOUT, now);
    var a := Allocate(t, wi);
    a.(writeWait := if frame.Heartbeat? then a.writeWait + [wi] else [wi] + a.writeWait)
  }

  /** tcp__conn_async_cb: a new socket, the queues as they are; `started` is false on a
      resolver or connect error. */
  function ConnAsync(s: Sys, started: bool, again: bool): Sys {
    if s.t.isConnecting then s
    else if started then s.(t := s.t.(conn := Connecting, isConnecting := true, wire := []))
    else Reconn(s.(t := s.t.(conn := Connecting)), again)
  }

  /** tcp__conn_done_cb; `reading` is false when uv_read_start fails. */
  function ConnDone(s: Sys, connected: bool, reading: bool, again: bool, now: int): Sys {
    var t := s.t.(isConnecting := false);
    if !connected then Reconn(s.(t := t), again)
    else if !reading then Reconn(s.(t := t.(conn := Handshaking)), again)
    else s.(t := AddInternal(t.(conn := Handshaking), Handshake, now))
  }

  /** tcp__on_handshake_resp. */
  function HandshakeResp(s: Sys, accepted: bool, now: int): Sys {
    if accepted then
      var t := AddInternal(s.t, HandshakeAck, now);
      s.(t := t.(conn := Done))
    else
      Reset(s)
  }

  /** tcp__write_async_cb; `ret` is what uv_write returns. */
  function WriteAsync(s: Sys, ret: int): Sys {
    if s.t.conn == NotConn || s.t.isWriting then s
    else
      var t := if s.t.conn == Done then s.t.(writeWait := s.t.writeWait + s.t.connPending, connPending := []) else s.t;
      if t.writeWait == [] then s.(t := t)
      else
        var u := t.(writing := t.writing + t.writeWait, writeWait := []);
        if ret == 0 then s.(t := u.(isWriting := true, wire := t.wire + t.writeWait))
        else FinishAll(s.(t := u.(writing := [])), u.writing, ret)
  }

  /** tcp__write_done_cb, item by item: after a good write requests wait for their
      response, everything else is finished. */
  function Written(s: Sys, items: seq<Item>, status: int): Sys
    decreases items
  {
    if items == [] then s
    else if status == RC_OK && items[0].kind.Resp? then
      Written(s.(t := s.t.(respPending := s.t.respPending + [items[0]])), items[1..], status)
    else
      Written(Finish(s, items[0], status), items[1..], status)
  }

  function WriteDone(s: Sys, good: bool): Sys {
    Written(s.(t := s.t.(isWriting := false, writing := [])), s.t.writing, if good then RC_OK else RC_ERROR)
  }

  predicate Expired(wi: Item, now: int) {
    wi.timeout != WITHOUT_TIMEOUT && now > wi.ts + wi.timeout
  }

  /** The items tcp__check_queue_timeout keeps, or drops, in their order. */
  function Select(items: seq<Item>, now: int, expired: bool): seq<Item> {
    if items == [] then []
    else (if Expired(items[0], now) == expired then [items[0]] else []) + Select(items[1..], now, expired)
  }

  /** tcp__write_check_timeout_cb: the three queues one after the other. */
  function CheckTimeout(s: Sys, now: int): Sys {
    var s1 := FinishAll(s.(t := s.t.(connPending := Select(s.t.connPending, now, false))),
                        Select(s.t.connPending, now, true), RC_TIMEOUT);
    var s2 := FinishAll(s1.(t := s1.t.(writeWait := Select(s1.t.writeWait, now, false))),
                        Select(s1.t.writeWait, now, true), RC_TIMEOUT);
    FinishAll(s2.(t := s2.t.(respPending := Select(s2.t.respPending, now, false))),
              Select(s2.t.respPending, now, true), RC_TIMEOUT)
  }

  /** Position of the first item waiting for this response, or the length. */
  function IndexOfItem(items: seq<Item>, reqId: nat): (i: nat)
    ensures i <= |items|
    ensures i < |items| ==> items[i].reqId == reqId
    ensures forall j :: 0 <= j < i ==> items[j].reqId != reqId
  {
    if items == [] || items[0].reqId == reqId then 0 else 1 + IndexOfItem(items[1..], reqId)
  }

  /** tcp__on_data_recieved for a response: the client first, then the write item. */
  function Response(s: Sys, reqId: nat): Sys {
    var c := Report(s.c, ReqKey(reqId), RC_OK);
    var i := IndexOfItem(s.t.respPending, reqId);
    if i == |s.t.respPending| then s.(c := c)
    else Sys(c, Release(s.t, s.t.respPending[i]).(respPending := RemoveAt(s.t.respPending, i)))
  }

  // ---- Runs

  /** Every way the outside world can move the system: calls of the user, completions
      of libuv, timers and packages from the server. */
  datatype Step =
    | DoRequest(encoded: bool, timeout: int, now: int)
    | DoNotify(encoded: bool, timeout: int, now: int)
    | DoPoll
    | DoConnAsync(started: bool, again: bool)
    | DoConnDone(connected: bool, reading: bool, again: bool, now: int)
    | DoHandshakeResp(accepted: bool, now: int)
    | DoHeartbeatTimer(now: int)
    | DoWriteAsync(ret: int)
    | DoWriteDone(good: bool)
    | DoCheckTimeout(now: int)
    | DoResponse(reqId: nat)
    | DoReset            // kick, disconnect, cleanup
    | DoReconn(again: bool)  // read, protocol, heartbeat and handshake timeouts

  /** What the code asserts of the moment of a callback.  Only what is proved of the
      order of items rests on it. */
  predicate Enabled(s: Sys, e: Step) {
    match e
    case DoConnDone(_, _, _, _) => s.t.isConnecting
    case DoHandshakeResp(_, _) => s.t.conn == Handshaking
    case DoHeartbeatTimer(_) => s.t.conn == Done
    case DoWriteDone(_) => s.t.isWriting
    case _ => true
  }

  function Apply(s: Sys, e: Step): Sys {
    match e
    case DoRequest(encoded, timeout, now) => Request(s, encoded, timeout, now)
    case DoNotify(encoded, timeout, now) => NotifyCall(s, encoded, timeout, now)
    case DoPoll => if s.c.polling then s.(c := Poll(s.c)) else s
    case DoConnAsync(started, again) => ConnAsync(s, started, again)
    case DoConnDone(connected, reading, again, now) => ConnDone(s, connected, reading, again, now)
    case DoHandshakeResp(accepted, now) => HandshakeResp(s, accepted, now)
    case DoHeartbeatTimer(now) => s.(t := AddInternal(s.t, Heartbeat, now))
    case DoWriteAsync(ret) => WriteAsync(s, ret)
    case DoWriteDone(good) => WriteDone(s, good)
    case DoCheckTimeout(now) => CheckTimeout(s, now)
    case DoResponse(reqId) => Response(s, reqId)
    case DoReset => Reset(s)
    case DoReconn(again) => Reconn(s, again)
  }

  predicate Possible(s: Sys, run: seq<Step>)
    decreases run
  {
    run == [] || (Enabled(s, run[0]) && Possible(Apply(s, run[0]), run[1..]))
  }

  function After(s: Sys, run: seq<Step>): Sys
    decreases run
  {
    if run == [] then s else After(Apply(s, run[0]), run[1..])
  }
}
