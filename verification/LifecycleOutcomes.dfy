/** Which result code every callback gets, read off the steps of a run: what ends a request
    or a notify, and nothing else does. */
module LifecycleOutcomes {
  import opened Basics
  import opened Lifecycle
  import opened LifecycleBooks
  import opened LifecycleRuns

  // ---- What ends a call

  /** The client's list that a key is looked up in. */
  function Entries(c: Client, key: Key): seq<Pending> {
    match key
    case ReqKey(_) => c.requests
    case SeqKey(_) => c.notifies
  }

  ghost predicate FirstAt(ps: seq<Pending>, key: Key, token: nat, i: nat) {
    i < |ps| && ps[i] == Pending(key, token) && forall j :: 0 <= j < i ==> ps[j].key != key
  }

  /** The call waits for its callback, and no older call with its id or sequence number does. */
  ghost predicate Awaits(c: Client, key: Key, token: nat) {
    exists i :: FirstAt(Entries(c, key), key, token, i)
  }

  /** The write item of the request with that id, or of the notify with that number. */
  predicate Carries(wi: Item, key: Key) {
    match key
    case ReqKey(id) => wi.kind == Resp && wi.reqId == id
    case SeqKey(n) => wi.kind == Notify && wi.seqNum == n
  }

  ghost predicate Carried(items: seq<Item>, key: Key) {
    exists i :: 0 <= i < |items| && Carries(items[i], key)
  }

  /** Some item of the call has a timeout, and it is over at `now`. */
  ghost predicate Overdue(items: seq<Item>, key: Key, now: int) {
    exists i ::
      && 0 <= i < |items| && Carries(items[i], key)
      && items[i].timeout != -1 && now > items[i].ts + items[i].timeout
  }

  /** The steps that reset the transport: a kick, a disconnect, cleanup, and every failure
      that makes it connect again or give up. */
  predicate Resets(s: Sys, e: Step) {
    match e
    case DoReset => true
    case DoReconn(_) => true
    case DoConnAsync(started, _) => !started && !s.t.isConnecting
    case DoConnDone(connected, reading, _, _) => !connected || !reading
    case DoHandshakeResp(accepted, _) => !accepted
    case _ => false
  }

  /** The step ends the call with that code: a response with its id; for a notify a good
      write; a failed write; a sweep after its time; a reset. */
  ghost predicate Tells(s: Sys, e: Step, key: Key, rc: int) {
    || (rc == 0 && e.DoResponse? && key == ReqKey(e.reqId))
    || (rc == 0 && e == DoWriteDone(true) && key.SeqKey? && Carried(s.t.writing, key))
    || (rc == -1 && e == DoWriteDone(false) && Carried(s.t.writing, key))
    || (rc != 0 && e == DoWriteAsync(rc) && s.t.conn != NotConn && !s.t.isWriting
        && (Carried(s.t.writeWait, key) || (s.t.conn == Done && Carried(s.t.connPending, key))))
    || (rc == -2 && e.DoCheckTimeout?
        && (Overdue(s.t.connPending, key, e.now) || Overdue(s.t.writeWait, key, e.now)
            || Overdue(s.t.respPending, key, e.now)))
    || (rc == -11 && Resets(s, e)
        && (Carried(s.t.connPending, key) || Carried(s.t.writeWait, key) || Carried(s.t.writing, key)
            || Carried(s.t.respPending, key)))
  }

  ghost predicate TellsNothing(s: Sys, e: Step, key: Key) {
    forall rc :: !Tells(s, e, key, rc)
  }

  lemma TellsOneCode(s: Sys, e: Step, key: Key, rc: int, rc2: int)
    requires Tells(s, e, key, rc) && Tells(s, e, key, rc2)
    ensures rc == rc2
  {
    hide Carried, Overdue;
  }

  // ---- How far a call has got

  ghost predicate FirstEvent(es: seq<Event>, key: Key, rc: int, i: nat) {
    i < |es| && es[i] == Event(key, rc) && forall j :: 0 <= j < i ==> es[j].key != key
  }

  ghost predicate HasEvent(c: Client, key: Key, rc: int) {
    exists i :: FirstEvent(c.events, key, rc, i)
  }

  ghost predicate NoEvent(c: Client, key: Key) {
    forall i :: 0 <= i < |c.events| ==> c.events[i].key != key
  }

  /** Not ended; ended with its event still to be polled; called back. */
  datatype Fate = Open | Told(rc: int) | Over(rc: int)

  ghost predicate Reached(c: Client, key: Key, token: nat, f: Fate) {
    match f
    case Open => Awaits(c, key, token) && (c.polling ==> NoEvent(c, key))
    case Told(rc) => c.polling && Awaits(c, key, token) && HasEvent(c, key, rc)
    case Over(rc) => Call(token, rc) in c.called
  }

  /** Where it gets when it hears `rc` or, for None, nothing. */
  function Heard(polling: bool, f: Fate, told: Option<int>): Fate {
    if f.Open? && told.Some? then if polling then Told(told.value) else Over(told.value) else f
  }

  lemma FirstIs(ps: seq<Pending>, key: Key, token: nat, i: nat)
    requires FirstAt(ps, key, token, i)
    ensures IndexOf(ps, key) == i
  {
  }

  lemma StillFirst(ps: seq<Pending>, qs: seq<Pending>, key: Key, token: nat, i: nat, other: nat)
    requires FirstAt(ps, key, token, i) && other < |ps| && ps[other].key != key && qs == RemoveAt(ps, other)
    ensures FirstAt(qs, key, token, if other < i then i - 1 else i)
  {
  }

  lemma DeliverKeeps(c: Client, key: Key, rc: int)
    ensures var d := Deliver(c, key, rc);
            c.called <= d.called && d.polling == c.polling && d.events == c.events
  {
  }

  /** Telling another key leaves the call where it was. */
  lemma DeliverOther(c: Client, key: Key, token: nat, k: Key, rc: int, f: Fate)
    requires k != key && Reached(c, key, token, f)
    ensures Reached(Deliver(c, k, rc), key, token, f)
  {
    hide Deliver, Awaits;
    DeliverKeeps(c, k, rc);
    if !f.Over? {
      DeliverAwaits(c, key, token, k, rc);
    }
  }

  lemma DeliverAwaits(c: Client, key: Key, token: nat, k: Key, rc: int)
    requires k != key && Awaits(c, key, token)
    ensures Awaits(Deliver(c, k, rc), key, token)
  {
    hide IndexOf, RemoveAt, FirstAt;
    var i :| FirstAt(Entries(c, key), key, token, i);
    var ps, d := Entries(c, k), Deliver(c, k, rc);
    var j := IndexOf(ps, k);
    if j < |ps| && key.ReqKey? == k.ReqKey? {
      StillFirst(ps, RemoveAt(ps, j), key, token, i, j);
      assert Entries(d, key) == RemoveAt(ps, j);
    } else {
      assert Entries(d, key) == Entries(c, key);
    }
  }

  /** Telling its own key calls it back. */
  lemma DeliverOwn(c: Client, key: Key, token: nat, rc: int)
    requires Awaits(c, key, token)
    ensures Call(token, rc) in Deliver(c, key, rc).called
  {
    hide RemoveAt, IndexOf;
    var i :| FirstAt(Entries(c, key), key, token, i);
    FirstIs(Entries(c, key), key, token, i);
  }

  lemma ReportReaches(c: Client, key: Key, token: nat, k: Key, rc: int, f: Fate)
    requires Reached(c, key, token, f)
    ensures Reached(Report(c, k, rc), key, token, Heard(c.polling, f, if k == key then Some(rc) else None))
    ensures Report(c, k, rc).polling == c.polling
  {
    hide Awaits, IndexOf, RemoveAt, Deliver;
    DeliverKeeps(c, k, rc);
    if c.polling {
      var d := Report(c, k, rc);
      SameEntries(c, d, key, token);
      if f.Told? {
        var i :| FirstEvent(c.events, key, f.rc, i);
        assert FirstEvent(d.events, key, f.rc, i);
      } else if f.Open? && k == key {
        assert FirstEvent(d.events, key, rc, |c.events|);
      }
    } else if k != key {
      DeliverOther(c, key, token, k, rc, f);
    } else if f.Open? {
      DeliverOwn(c, key, token, rc);
    }
  }

  lemma SameEntries(c: Client, d: Client, key: Key, token: nat)
    requires c.requests == d.requests && c.notifies == d.notifies
    ensures Awaits(c, key, token) == Awaits(d, key, token)
  {
    assert Entries(c, key) == Entries(d, key);
  }

  // ---- One step

  /** Items finished in a row tell their owners the code. */
  lemma {:induction false} FinishAllReaches(s: Sys, items: seq<Item>, rc: int, key: Key, token: nat, f: Fate)
    requires Reached(s.c, key, token, f)
    ensures var c := FinishAll(s, items, rc).c;
            && c.polling == s.c.polling
            && Reached(c, key, token, Heard(s.c.polling, f, if Carried(items, key) then Some(rc) else None))
    decreases items
  {
    hide Reached, Report, Release;
    if items != [] {
      var s2 := Finish(s, items[0], rc);
      var g := f;
      if !items[0].kind.Internal? {
        ReportReaches(s.c, key, token, KeyOf(items[0]), rc, f);
        g := Heard(s.c.polling, f, if KeyOf(items[0]) == key then Some(rc) else None);
      }
      FinishAllReaches(s2, items[1..], rc, key, token, g);
      CarriedFirst(items, key);
      assert !items[0].kind.Internal? ==> (KeyOf(items[0]) == key <==> Carries(items[0], key));
    }
  }

  lemma CarriedFirst(items: seq<Item>, key: Key)
    ensures items == [] ==> !Carried(items, key)
    ensures items != [] ==> (Carried(items, key) <==> Carries(items[0], key) || Carried(items[1..], key))
  {
    if items != [] {
      if Carried(items[1..], key) {
        var i :| 0 <= i < |items[1..]| && Carries(items[1..][i], key);
        assert Carries(items[i + 1], key);
      }
      if Carried(items, key) && !Carries(items[0], key) {
        var i :| 0 <= i < |items| && Carries(items[i], key);
        assert Carries(items[1..][i - 1], key);
      }
    }
  }

  lemma CarriedJoined(a: seq<Item>, b: seq<Item>, key: Key)
    ensures Carried(a + b, key) <==> Carried(a, key) || Carried(b, key)
  {
    if Carried(a, key) {
      var i :| 0 <= i < |a| && Carries(a[i], key);
      assert Carries((a + b)[i], key);
    }
    if Carried(b, key) {
      var i :| 0 <= i < |b| && Carries(b[i], key);
      assert Carries((a + b)[|a| + i], key);
    }
  }

  /** The expired items of a queue are those whose time is over. */
  lemma SelectOverdue(items: seq<Item>, key: Key, now: int)
    ensures Carried(Select(items, now, true), key) <==> Overdue(items, key, now)
  {
    hide Select;
    var q := Select(items, now, true);
    SelectFilters(items, now, true);
    if Carried(q, key) {
      var i :| 0 <= i < |q| && Carries(q[i], key);
      assert q[i] in items && Expired(q[i], now);
      var j :| 0 <= j < |items| && items[j] == q[i];
    }
    if Overdue(items, key, now) {
      var i :|
        && 0 <= i < |items| && Carries(items[i], key)
        && items[i].timeout != -1 && now > items[i].ts + items[i].timeout;
      assert items[i] in q;
      var j :| 0 <= j < |q| && q[j] == items[i];
    }
  }

  lemma ResetReaches(s: Sys, key: Key, token: nat, f: Fate)
    requires Reached(s.c, key, token, f)
    ensures var c, t := Reset(s).c, s.t;
            var hit := Carried(t.connPending, key) || Carried(t.writeWait, key) || Carried(t.writing, key)
                       || Carried(t.respPending, key);
            c.polling == s.c.polling && Reached(c, key, token, Heard(s.c.polling, f, if hit then Some(-11) else None))
  {
    hide Reached, FinishAll, Carried;
    var t := s.t;
    var all := t.writing + t.connPending + t.writeWait + t.respPending;
    CarriedJoined(t.writing + t.connPending + t.writeWait, t.respPending, key);
    CarriedJoined(t.writing + t.connPending, t.writeWait, key);
    CarriedJoined(t.writing, t.connPending, key);
    FinishAllReaches(s.(t := t.(conn := NotConn, connPending := [], writeWait := [], writing := [], respPending := [],
                                wire := [])),
                     all, -11, key, token, f);
  }

  lemma WriteAsyncReaches(s: Sys, ret: int, key: Key, token: nat, f: Fate)
    requires Reached(s.c, key, token, f) && UnderWay(s.t)
    ensures var c, t := WriteAsync(s, ret).c, s.t;
            var hit := ret != 0 && t.conn != NotConn && !t.isWriting
                       && (Carried(t.writeWait, key) || (t.conn == Done && Carried(t.connPending, key)));
            c.polling == s.c.polling && Reached(c, key, token, Heard(s.c.polling, f, if hit then Some(ret) else None))
  {
    hide Reached, FinishAll, Carried;
    var m := Merged(s.t);
    CarriedJoined(s.t.writeWait, s.t.connPending, key);
    CarriedNone(key);
    assert !s.t.isWriting ==> m.writing == [] && m.writing + m.writeWait == m.writeWait;
    FinishAllReaches(s.(t := m.(writing := [], writeWait := [])), m.writeWait, ret, key, token, f);
  }

  lemma CarriedNone(key: Key)
    ensures !Carried([], key)
  {
  }

  lemma {:induction false} WrittenReaches(s: Sys, items: seq<Item>, status: int, key: Key, token: nat, f: Fate)
    requires Reached(s.c, key, token, f)
    ensures var c := Written(s, items, status).c;
            var hit := Carried(items, key) && (status == 0 ==> key.SeqKey?);
            && c.polling == s.c.polling
            && Reached(c, key, token, Heard(s.c.polling, f, if hit then Some(status) else None))
    decreases items
  {
    hide Reached, Report, Release, Carried;
    CarriedFirst(items, key);
    if items != [] {
      var g := f;
      var s2 := s.(t := s.t.(respPending := s.t.respPending + [items[0]]));
      if !(status == RC_OK && items[0].kind.Resp?) {
        s2 := Finish(s, items[0], status);
        if !items[0].kind.Internal? {
          ReportReaches(s.c, key, token, KeyOf(items[0]), status, f);
          g := Heard(s.c.polling, f, if KeyOf(items[0]) == key then Some(status) else None);
        }
      }
      WrittenReaches(s2, items[1..], status, key, token, g);
      assert !items[0].kind.Internal? ==> (KeyOf(items[0]) == key <==> Carries(items[0], key));
    }
  }

  lemma SweepReaches(s: Sys, now: int, key: Key, token: nat, f: Fate)
    requires Reached(s.c, key, token, f)
    ensures var c, t := CheckTimeout(s, now).c, s.t;
            var hit := Overdue(t.connPending, key, now) || Overdue(t.writeWait, key, now)
                       || Overdue(t.respPending, key, now);
            c.polling == s.c.polling && Reached(c, key, token, Heard(s.c.polling, f, if hit then Some(-2) else None))
  {
    hide Reached, FinishAll, Carried, Overdue, Select;
    var p := s.c.polling;
    SelectOverdue(s.t.connPending, key, now);
    var a := Overdue(s.t.connPending, key, now);
    var s0 := s.(t := s.t.(connPending := Select(s.t.connPending, now, false)));
    FinishAllReaches(s0, Select(s.t.connPending, now, true), -2, key, token, f);
    FinishAllKeeps(s0, Select(s.t.connPending, now, true), -2);
    var f1 := Heard(p, f, if a then Some(-2) else None);
    var s1 := FinishAll(s0, Select(s.t.connPending, now, true), -2);
    SelectOverdue(s1.t.writeWait, key, now);
    var b := Overdue(s.t.writeWait, key, now);
    var s2 := s1.(t := s1.t.(writeWait := Select(s1.t.writeWait, now, false)));
    FinishAllReaches(s2, Select(s1.t.writeWait, now, true), -2, key, token, f1);
    FinishAllKeeps(s2, Select(s1.t.writeWait, now, true), -2);
    var f2 := Heard(p, f1, if b then Some(-2) else None);
    var s3 := FinishAll(s2, Select(s1.t.writeWait, now, true), -2);
    SelectOverdue(s3.t.respPending, key, now);
    var s4 := s3.(t := s3.t.(respPending := Select(s3.t.respPending, now, false)));
    FinishAllReaches(s4, Select(s3.t.respPending, now, true), -2, key, token, f2);
  }

  /** The code a step ends the call with, if it does. */
  ghost function ToldBy(s: Sys, e: Step, key: Key): (r: Option<int>)
    ensures r.Some? ==> Tells(s, e, key, r.value)
    ensures r.None? ==> TellsNothing(s, e, key)
  {
    if rc :| Tells(s, e, key, rc) then Some(rc) else None
  }

  lemma ToldIs(s: Sys, e: Step, key: Key, hit: bool, code: int)
    requires forall rc :: Tells(s, e, key, rc) <==> hit && rc == code
    ensures ToldBy(s, e, key) == if hit then Some(code) else None
  {
    hide Tells;
    if hit {
      assert Tells(s, e, key, code);
    }
  }

  lemma EventsTail(c: Client, key: Key, token: nat, f: Fate)
    requires c.events != [] && Reached(c, key, token, f) && c.events[0].key != key
    ensures Reached(c.(events := c.events[1..]), key, token, f)
  {
    hide Awaits, FirstEvent;
    var d := c.(events := c.events[1..]);
    SameEntries(c, d, key, token);
    if f.Told? {
      var i :| FirstEvent(c.events, key, f.rc, i);
      EventMoves(c.events, key, f.rc, i);
    }
  }

  lemma EventMoves(es: seq<Event>, key: Key, rc: int, i: nat)
    requires FirstEvent(es, key, rc, i) && es[0].key != key
    ensures i > 0 && FirstEvent(es[1..], key, rc, i - 1)
  {
  }

  lemma {:induction false} PollReaches(c: Client, key: Key, token: nat, f: Fate)
    requires Reached(c, key, token, f) && c.polling
    ensures Reached(Poll(c), key, token, if f.Told? then Over(f.rc) else f) && Poll(c).polling
    decreases |c.events|
  {
    hide Reached, Deliver;
    if c.events == [] {
      Drained(c, key, token, f);
    } else {
      var d, e := c.(events := c.events[1..]), c.events[0];
      DeliverKeeps(d, e.key, e.rc);
      if e.key != key {
        EventsTail(c, key, token, f);
        DeliverOther(d, key, token, e.key, e.rc, f);
        PollReaches(Deliver(d, e.key, e.rc), key, token, f);
      } else {
        OwnEvent(c, key, token, f);
        PollReaches(Deliver(d, e.key, e.rc), key, token, if f.Told? then Over(f.rc) else f);
      }
    }
  }

  lemma Drained(c: Client, key: Key, token: nat, f: Fate)
    requires c.events == [] && Reached(c, key, token, f)
    ensures !f.Told?
  {
  }

  lemma OwnEvent(c: Client, key: Key, token: nat, f: Fate)
    requires c.polling && c.events != [] && c.events[0].key == key && Reached(c, key, token, f)
    ensures !f.Open?
    ensures var d := c.(events := c.events[1..]);
            Reached(Deliver(d, key, c.events[0].rc), key, token, if f.Told? then Over(f.rc) else f)
  {
    hide Awaits, Deliver;
    var d := c.(events := c.events[1..]);
    SameEntries(c, d, key, token);
    DeliverKeeps(d, key, c.events[0].rc);
    if f.Told? {
      var i :| FirstEvent(c.events, key, f.rc, i);
      assert i == 0;
      DeliverOwn(d, key, token, f.rc);
    }
  }

  /** A new entry comes behind the others. */
  lemma EntryReaches(c: Client, d: Client, key: Key, token: nat, f: Fate)
    requires Reached(c, key, token, f) && d.polling == c.polling && d.events == c.events && d.called == c.called
    requires c.requests <= d.requests && c.notifies <= d.notifies
    ensures Reached(d, key, token, f)
  {
    if !f.Over? {
      var i :| FirstAt(Entries(c, key), key, token, i);
      assert FirstAt(Entries(d, key), key, token, i);
    }
  }

  /** One step takes a call exactly as far as it tells. */
  ghost predicate Advances(s: Sys, e: Step, key: Key, token: nat, f: Fate) {
    var c := Apply(s, e).c;
    && c.polling == s.c.polling
    && Reached(c, key, token,
               if e == DoPoll && s.c.polling then (if f.Told? then Over(f.rc) else f)
               else Heard(s.c.polling, f, ToldBy(s, e, key)))
  }

  /** Some queue holds an item of the call. */
  ghost predicate Linking(t: Trans, key: Key) {
    Carried(t.connPending, key) || Carried(t.writeWait, key) || Carried(t.writing, key) || Carried(t.respPending, key)
  }

  /** After a reset from `u`, a state that differs from `s` in no queue. */
  lemma AfterReset(s: Sys, e: Step, u: Sys, key: Key, token: nat, f: Fate)
    requires Reached(s.c, key, token, f) && Resets(s, e) && Apply(s, e).c == Reset(u).c && u.c == s.c
    requires u.t == s.t.(conn := u.t.conn, isConnecting := u.t.isConnecting)
    ensures Advances(s, e, key, token, f)
  {
    hide Reached, Carried, Overdue, Reset, Apply;
    ToldIs(s, e, key, Linking(s.t, key), -11);
    ResetReaches(u, key, token, f);
  }

  lemma ResettingReaches(s: Sys, e: Step, key: Key, token: nat, f: Fate)
    requires Reached(s.c, key, token, f) && Resets(s, e)
    ensures Advances(s, e, key, token, f)
  {
    hide Reached, Reset, Advances;
    match e
    case DoConnAsync(_, again) => AfterReset(s, e, s.(t := s.t.(conn := Connecting)), key, token, f);
    case DoConnDone(connected, _, again, _) =>
      if !connected {
        AfterReset(s, e, s.(t := s.t.(isConnecting := false)), key, token, f);
      } else {
        AfterReset(s, e, s.(t := s.t.(isConnecting := false, conn := Handshaking)), key, token, f);
      }
    case _ =>
      AfterReset(s, e, s, key, token, f);
  }

  /** Steps that tell nobody. */
  lemma SilentReaches(s: Sys, e: Step, key: Key, token: nat, f: Fate)
    requires Reached(s.c, key, token, f) && !Resets(s, e)
    requires !e.DoWriteAsync? && !e.DoWriteDone? && !e.DoCheckTimeout? && !e.DoResponse? && !(e.DoPoll? && s.c.polling)
    ensures Advances(s, e, key, token, f)
  {
    hide Reached, Carried, Overdue;
    ToldIs(s, e, key, false, 0);
    EntryReaches(s.c, Apply(s, e).c, key, token, f);
  }

  lemma StepReaches(s: Sys, e: Step, key: Key, token: nat, f: Fate)
    requires Reached(s.c, key, token, f) && UnderWay(s.t)
    ensures Advances(s, e, key, token, f)
  {
    hide Reached, Carried, Overdue, WriteAsync, WriteDone, CheckTimeout, Report, Reset, Poll;
    if Resets(s, e) {
      ResettingReaches(s, e, key, token, f);
    } else {
      match e
      case DoWriteAsync(ret) =>
        var hit := ret != 0 && s.t.conn != NotConn && !s.t.isWriting
                   && (Carried(s.t.writeWait, key) || (s.t.conn == Done && Carried(s.t.connPending, key)));
        ToldIs(s, e, key, hit, ret);
        WriteAsyncReaches(s, ret, key, token, f);
      case DoWriteDone(good) =>
        WriteDoneReaches(s, good, key, token, f);
      case DoCheckTimeout(now) =>
        var hit := Overdue(s.t.connPending, key, now) || Overdue(s.t.writeWait, key, now)
                   || Overdue(s.t.respPending, key, now);
        ToldIs(s, e, key, hit, -2);
        SweepReaches(s, now, key, token, f);
      case DoResponse(id) =>
        ToldIs(s, e, key, key == ReqKey(id), 0);
        ReportReaches(s.c, key, token, ReqKey(id), 0, f);
      case DoPoll =>
        if s.c.polling {
          PollReaches(s.c, key, token, f);
        } else {
          SilentReaches(s, e, key, token, f);
        }
      case _ =>
        SilentReaches(s, e, key, token, f);
    }
  }

  lemma WriteDoneReaches(s: Sys, good: bool, key: Key, token: nat, f: Fate)
    requires Reached(s.c, key, token, f)
    ensures Advances(s, DoWriteDone(good), key, token, f)
  {
    hide Reached, Carried, Overdue, Written;
    var status := if good then 0 else -1;
    ToldIs(s, DoWriteDone(good), key, Carried(s.t.writing, key) && (good ==> key.SeqKey?), status);
    WrittenReaches(s.(t := s.t.(isWriting := false, writing := [])), s.t.writing, status, key, token, f);
  }

  // ---- Runs

  /** The n-th step of the run is the first to end the call, and with that code. */
  ghost predicate FirstTold(s: Sys, run: seq<Step>, key: Key, n: nat, rc: int) {
    && n < |run| && Tells(After(s, run[..n]), run[n], key, rc)
    && forall m: nat :: m < n ==> TellsNothing(After(s, run[..m]), run[m], key)
  }

  /** No step of the run ends the call. */
  ghost predicate Silent(s: Sys, run: seq<Step>, key: Key) {
    forall m: nat :: m < |run| ==> TellsNothing(After(s, run[..m]), run[m], key)
  }

  ghost predicate PolledAfter(run: seq<Step>, n: nat) {
    exists m :: n < m < |run| && run[m] == DoPoll
  }

  lemma {:induction false} AfterLast(s: Sys, run: seq<Step>)
    requires run != []
    ensures After(s, run) == Apply(After(s, run[..|run| - 1]), run[|run| - 1])
    decreases run
  {
    hide Apply;
    var k := |run| - 1;
    if k > 0 {
      AfterLast(Apply(s, run[0]), run[1..]);
      assert run[1..][..k - 1] == run[..k][1..];
    } else {
      assert run[..0] == [] && run[1..] == [];
    }
  }

  lemma {:induction false} AfterJoined(s: Sys, a: seq<Step>, b: seq<Step>)
    ensures After(s, a + b) == After(After(s, a), b)
    decreases a
  {
    hide Apply;
    if a == [] {
      assert a + b == b;
    } else {
      assert (a + b)[1..] == a[1..] + b;
      AfterJoined(Apply(s, a[0]), a[1..], b);
    }
  }

  lemma FirstToldLonger(s: Sys, run: seq<Step>, key: Key, n: nat, rc: int)
    requires run != [] && FirstTold(s, run[..|run| - 1], key, n, rc)
    ensures FirstTold(s, run, key, n, rc)
  {
    hide After, Tells, TellsNothing;
    var r := run[..|run| - 1];
    assert forall m: nat :: m <= n ==> run[..m] == r[..m] && run[m] == r[m];
  }

  lemma SilentLonger(s: Sys, run: seq<Step>, key: Key)
    requires run != []
    requires Silent(s, run[..|run| - 1], key)
    ensures forall m: nat :: m < |run| - 1 ==> TellsNothing(After(s, run[..m]), run[m], key)
  {
    hide After, TellsNothing;
    var r := run[..|run| - 1];
    assert forall m: nat :: m < |r| ==> run[..m] == r[..m] && run[m] == r[m];
  }

  /** How far a run takes a call. */
  lemma {:induction false} RunReaches(s: Sys, run: seq<Step>, key: Key, token: nat) returns (f: Fate, n: nat)
    requires Reached(s.c, key, token, Open) && UnderWay(s.t)
    ensures var c := After(s, run).c; c.polling == s.c.polling && Reached(c, key, token, f) && UnderWay(After(s, run).t)
    ensures f.Open? ==> Silent(s, run, key)
    ensures !f.Open? ==> FirstTold(s, run, key, n, f.rc)
    ensures f.Told? ==> s.c.polling && !PolledAfter(run, n)
    ensures f.Over? && s.c.polling ==> PolledAfter(run, n)
    decreases |run|
  {
    hide Reached, Apply, UnderWay, Tells, TellsNothing, FirstTold;
    if run == [] {
      f, n := Open, 0;
    } else {
      var k := |run| - 1;
      var r, e := run[..k], run[k];
      f, n := RunReaches(s, r, key, token);
      var t := After(s, r);
      StepReaches(t, e, key, token, f);
      StepKeepsBatch(t, e);
      AfterLast(s, run);
      SilentOrFirst(s, run, key, f, n);
      var told := ToldBy(t, e, key);
      if e == DoPoll && s.c.polling {
        PollIsSilent(t, key);
        if f.Told? {
          assert run[k] == DoPoll && n < k;
          f := Over(f.rc);
        }
      } else {
        if f.Open? && told.Some? {
          n := k;
        }
        f := Heard(s.c.polling, f, told);
      }
    }
  }

  lemma PollIsSilent(s: Sys, key: Key)
    ensures TellsNothing(s, DoPoll, key)
  {
  }

  /** What the steps before the last one told still holds with it. */
  lemma SilentOrFirst(s: Sys, run: seq<Step>, key: Key, f: Fate, n: nat)
    requires run != []
    requires var r := run[..|run| - 1];
             && (f.Open? ==> Silent(s, r, key))
             && (!f.Open? ==> FirstTold(s, r, key, n, f.rc))
    ensures var k := |run| - 1;
            && (!f.Open? ==> FirstTold(s, run, key, n, f.rc) && n < k)
            && (f.Open? && TellsNothing(After(s, run[..k]), run[k], key) ==> Silent(s, run, key))
            && (forall rc :: f.Open? && Tells(After(s, run[..k]), run[k], key, rc) ==> FirstTold(s, run, key, k, rc))
  {
    hide After, Tells, TellsNothing;
    if f.Open? {
      SilentLonger(s, run, key);
    } else {
      FirstToldLonger(s, run, key, n, f.rc);
    }
  }

  // ---- The numbers of the calls

  /** The client after it was told something: entries may be gone, nothing else is new. */
  ghost predicate Heeds(c: Client, d: Client) {
    && d.polling == c.polling && d.seqNum == c.seqNum && d.reqIdSeq == c.reqIdSeq && d.accepted == c.accepted
    && (forall p <- d.requests :: p in c.requests) && (forall p <- d.notifies :: p in c.notifies)
  }

  lemma DeliverHeeds(c: Client, key: Key, rc: int)
    ensures Heeds(c, Deliver(c, key, rc))
  {
  }

  lemma {:induction false} FinishAllHeeds(s: Sys, items: seq<Item>, rc: int)
    ensures Heeds(s.c, FinishAll(s, items, rc).c)
    decreases items
  {
    hide Deliver;
    if items != [] {
      DeliverHeeds(s.c, KeyOf(items[0]), rc);
      FinishAllHeeds(Finish(s, items[0], rc), items[1..], rc);
    }
  }

  lemma {:induction false} WrittenHeeds(s: Sys, items: seq<Item>, status: int)
    ensures Heeds(s.c, Written(s, items, status).c)
    decreases items
  {
    hide Deliver;
    if items != [] {
      DeliverHeeds(s.c, KeyOf(items[0]), status);
      if status == RC_OK && items[0].kind.Resp? {
        WrittenHeeds(s.(t := s.t.(respPending := s.t.respPending + [items[0]])), items[1..], status);
      } else {
        WrittenHeeds(Finish(s, items[0], status), items[1..], status);
      }
    }
  }

  lemma {:induction false} PollHeeds(c: Client)
    ensures Heeds(c, Poll(c))
    decreases |c.events|
  {
    hide Deliver;
    if c.events != [] {
      var d, e := c.(events := c.events[1..]), c.events[0];
      DeliverKeeps(d, e.key, e.rc);
      DeliverHeeds(d, e.key, e.rc);
      PollHeeds(Deliver(d, e.key, e.rc));
    }
  }

  lemma ResetHeeds(s: Sys)
    ensures Heeds(s.c, Reset(s).c)
  {
    hide FinishAll;
    FinishAllHeeds(s.(t := s.t.(conn := NotConn, connPending := [], writeWait := [], writing := [], respPending := [],
                                wire := [])),
                   s.t.writing + s.t.connPending + s.t.writeWait + s.t.respPending, RC_RESET);
  }

  lemma WriteAsyncHeeds(s: Sys, ret: int)
    ensures Heeds(s.c, WriteAsync(s, ret).c)
  {
    hide FinishAll;
    var m := Merged(s.t);
    FinishAllHeeds(s.(t := m.(writing := [], writeWait := [])), m.writing + m.writeWait, ret);
  }

  lemma SweepHeeds(s: Sys, now: int)
    ensures Heeds(s.c, CheckTimeout(s, now).c)
  {
    hide FinishAll, Select;
    var s0 := s.(t := s.t.(connPending := Select(s.t.connPending, now, false)));
    FinishAllHeeds(s0, Select(s.t.connPending, now, true), RC_TIMEOUT);
    var s1 := FinishAll(s0, Select(s.t.connPending, now, true), RC_TIMEOUT);
    var s2 := s1.(t := s1.t.(writeWait := Select(s1.t.writeWait, now, false)));
    FinishAllHeeds(s2, Select(s1.t.writeWait, now, true), RC_TIMEOUT);
    var s3 := FinishAll(s2, Select(s1.t.writeWait, now, true), RC_TIMEOUT);
    var s4 := s3.(t := s3.t.(respPending := Select(s3.t.respPending, now, false)));
    FinishAllHeeds(s4, Select(s3.t.respPending, now, true), RC_TIMEOUT);
  }

  /** Every step but a call only tells the client something. */
  lemma StepHeeds(s: Sys, e: Step)
    ensures Apply(s, e).c.polling == s.c.polling
    ensures !e.DoRequest? && !e.DoNotify? ==> Heeds(s.c, Apply(s, e).c)
  {
    hide Reset, WriteAsync, CheckTimeout, Poll, Written, Deliver;
    match e
    case DoReset => ResetHeeds(s);
    case DoReconn(_) => ResetHeeds(s);
    case DoConnAsync(_, _) => ResetHeeds(s.(t := s.t.(conn := Connecting)));
    case DoConnDone(_, _, _, _) =>
      ResetHeeds(s.(t := s.t.(isConnecting := false)));
      ResetHeeds(s.(t := s.t.(isConnecting := false, conn := Handshaking)));
    case DoHandshakeResp(_, _) => ResetHeeds(s);
    case DoWriteAsync(ret) => WriteAsyncHeeds(s, ret);
    case DoWriteDone(good) =>
      WrittenHeeds(s.(t := s.t.(isWriting := false, writing := [])), s.t.writing, if good then RC_OK else RC_ERROR);
    case DoCheckTimeout(now) => SweepHeeds(s, now);
    case DoResponse(id) => DeliverHeeds(s.c, ReqKey(id), RC_OK);
    case DoPoll => PollHeeds(s.c);
    case _ =>
  }

  predicate IsCall(e: Step) {
    e.DoRequest? || e.DoNotify?
  }

  /** How many requests a run makes, and how many requests and notifies, accepted or not. */
  function Requests(run: seq<Step>): nat {
    if run == [] then 0 else Requests(run[..|run| - 1]) + if run[|run| - 1].DoRequest? then 1 else 0
  }

  function Calls(run: seq<Step>): nat {
    if run == [] then 0 else Calls(run[..|run| - 1]) + if IsCall(run[|run| - 1]) then 1 else 0
  }

  /** Request ids are given out in turn from 1 to 2^32-2 and again from 1, sequence numbers
      from 0 to 2^32-1. */
  lemma {:induction false} NumbersInTurn(polling: bool, run: seq<Step>)
    ensures var c := After(Init(polling), run).c;
            && NextReqId(c) == Requests(run) % 0xFFFF_FFFE + 1
            && c.seqNum == Calls(run) % 0x1_0000_0000
    decreases |run|
  {
    hide Apply, After;
    if run == [] {
      NoSteps(Init(polling));
    } else {
      var r, e := run[..|run| - 1], run[|run| - 1];
      NumbersInTurn(polling, r);
      AfterLast(Init(polling), run);
      CallTakesNumber(After(Init(polling), r), e, Requests(r), Calls(r));
    }
  }

  lemma CallTakesNumber(s: Sys, e: Step, requests: nat, calls: nat)
    requires NextReqId(s.c) == requests % 0xFFFF_FFFE + 1 && s.c.seqNum == calls % 0x1_0000_0000
    ensures var c := Apply(s, e).c;
            && NextReqId(c) == (requests + if e.DoRequest? then 1 else 0) % 0xFFFF_FFFE + 1
            && c.seqNum == (calls + if IsCall(e) then 1 else 0) % 0x1_0000_0000
  {
    StepHeeds(s, e);
    if e.DoRequest? {
      Wrapped(requests);
      CallAdds(s, e);
    } else if e.DoNotify? {
      CallAdds(s, e);
    } else {
      hide Apply;
    }
  }

  lemma Wrapped(k: nat)
    ensures (k + 1) % 0xFFFF_FFFE == if k % 0xFFFF_FFFE == 0xFFFF_FFFD then 0 else k % 0xFFFF_FFFE + 1
  {
  }

  /** What a call changes of the client's counters. */
  lemma CallAdds(s: Sys, e: Step)
    requires IsCall(e)
    ensures var c := Apply(s, e).c;
            && c.seqNum == (s.c.seqNum + 1) % 0x1_0000_0000
            && c.reqIdSeq == if e.DoRequest? then (NextReqId(s.c) + 1) % 0x1_0000_0000 else s.c.reqIdSeq
  {
  }

  /** The number under which the client keeps the call that `e` makes after `run`. */
  function KeyAfter(run: seq<Step>, e: Step): Key {
    if e.DoRequest? then ReqKey(Requests(run) % 0xFFFF_FFFE + 1) else SeqKey(Calls(run) % 0x1_0000_0000)
  }

  /** Numbers have not come round yet. */
  predicate FewCalls(run: seq<Step>) {
    Requests(run) <= 0xFFFF_FFFE && Calls(run) <= 0x1_0000_0000
  }

  ghost predicate Numbered(c: Client, requests: nat, calls: nat) {
    && (forall p <- c.requests :: p.key.ReqKey? && p.key.reqId <= requests)
    && (forall p <- c.notifies :: p.key.SeqKey? && p.key.seqNum < calls)
  }

  lemma FewBefore(run: seq<Step>)
    requires run != [] && FewCalls(run)
    ensures FewCalls(run[..|run| - 1])
  {
  }

  /** The entries of the client have numbers that were given out. */
  lemma {:induction false} EntriesNumbered(polling: bool, run: seq<Step>)
    requires FewCalls(run)
    ensures Numbered(After(Init(polling), run).c, Requests(run), Calls(run))
    decreases |run|
  {
    hide Apply, After, FewCalls, Heeds;
    if run == [] {
      NoSteps(Init(polling));
    } else {
      var r, e := run[..|run| - 1], run[|run| - 1];
      FewBefore(run);
      EntriesNumbered(polling, r);
      NumbersInTurn(polling, r);
      AfterLast(Init(polling), run);
      FewHere(run);
      StepNumbers(After(Init(polling), r), e, Requests(r), Calls(r));
    }
  }

  lemma FewHere(run: seq<Step>)
    requires run != [] && FewCalls(run)
    ensures var r, e := run[..|run| - 1], run[|run| - 1];
            && (e.DoRequest? ==> Requests(r) < 0xFFFF_FFFE) && (IsCall(e) ==> Calls(r) < 0x1_0000_0000)
  {
  }

  lemma StepNumbers(s: Sys, e: Step, requests: nat, calls: nat)
    requires Numbered(s.c, requests, calls)
    requires e.DoRequest? ==> NextReqId(s.c) == requests + 1
    requires IsCall(e) ==> s.c.seqNum == calls
    ensures Numbered(Apply(s, e).c, requests + if e.DoRequest? then 1 else 0, calls + if IsCall(e) then 1 else 0)
  {
    StepHeeds(s, e);
    if IsCall(e) {
      NewEntry(s, e);
    } else {
      hide Apply;
    }
  }

  /** A call is accepted exactly when there is a connection and the message can be encoded;
      then it has an entry, the last one, and a write item with its numbers. */
  lemma NewEntry(s: Sys, e: Step)
    requires IsCall(e) && (e.DoRequest? ==> NextReqId(s.c) != 0)
    ensures var c, t := Apply(s, e).c, Apply(s, e).t;
            var key := if e.DoRequest? then ReqKey(NextReqId(s.c)) else SeqKey(s.c.seqNum);
            if s.t.conn == NotConn || !e.encoded then
              t == s.t && c.requests == s.c.requests && c.notifies == s.c.notifies && c.accepted == s.c.accepted
            else
              && Entries(c, key) == Entries(s.c, key) + [Pending(key, s.c.accepted)] && c.accepted == s.c.accepted + 1
              && (if e.DoRequest? then c.notifies == s.c.notifies else c.requests == s.c.requests)
              && exists wi: Item ::
                   && !wi.kind.Internal? && Carries(wi, key) && wi.timeout == e.timeout && wi.ts == e.now
                   && t.connPending == s.t.connPending + (if s.t.conn == Done then [] else [wi])
                   && t.writeWait == s.t.writeWait + (if s.t.conn == Done then [wi] else [])
                   && t.writing == s.t.writing && t.respPending == s.t.respPending
  {
    hide FirstIdle;
    if s.t.conn != NotConn && e.encoded {
      var id := if e.DoRequest? then NextReqId(s.c) else NOTIFY_PUSH_REQ_ID;
      var wi := NewItem(s.t, if id == NOTIFY_PUSH_REQ_ID then Notify else Resp, s.c.seqNum, id, e.timeout, e.now);
      assert s.t.writeWait + [] == s.t.writeWait && s.t.connPending + [] == s.t.connPending;
      assert Apply(s, e).t == Send(s.t, s.c.seqNum, id, e.timeout, e.now);
    }
  }

  // ---- The items of the calls

  ghost predicate Queued(t: Trans, wi: Item) {
    wi in t.connPending || wi in t.writeWait || wi in t.writing || wi in t.respPending
  }

  /** The n-th step is the accepted call that the item was made for, with its numbers. */
  ghost predicate MadeAt(polling: bool, run: seq<Step>, n: nat, wi: Item) {
    && n < |run| && IsCall(run[n]) && run[n].encoded && After(Init(polling), run[..n]).t.conn != NotConn
    && Carries(wi, KeyAfter(run[..n], run[n])) && wi.timeout == run[n].timeout && wi.ts == run[n].now
  }

  lemma {:induction false} RespsFrom(items: seq<Item>)
    ensures forall wi <- Resps(items) :: wi in items
  {
    if items != [] {
      RespsFrom(items[1..]);
    }
  }

  /** No step but a call brings in an item for the client. */
  lemma StepItems(s: Sys, e: Step, wi: Item)
    requires !IsCall(e) && !wi.kind.Internal? && Queued(Apply(s, e).t, wi)
    ensures Queued(s.t, wi)
  {
    hide WriteAsync, WriteDone, CheckTimeout, Report, Reset, Poll, FirstIdle, Resps, Select;
    match e
    case DoReset => ResetEmpties(s);
    case DoReconn(again) => ResetEmpties(s);
    case DoConnAsync(started, again) => ResetEmpties(s.(t := s.t.(conn := Connecting)));
    case DoConnDone(connected, reading, again, now) =>
      ResetEmpties(s.(t := s.t.(isConnecting := false)));
      ResetEmpties(s.(t := s.t.(isConnecting := false, conn := Handshaking)));
    case DoHandshakeResp(accepted, now) => ResetEmpties(s);
    case DoWriteAsync(ret) => WriteAsyncMoves(s, ret);
    case DoWriteDone(good) =>
      WriteDoneMoves(s, good);
      RespsFrom(s.t.writing);
    case DoCheckTimeout(now) =>
      SweepMoves(s, now);
      SelectFilters(s.t.connPending, now, false);
      SelectFilters(s.t.writeWait, now, false);
      SelectFilters(s.t.respPending, now, false);
    case _ =>
  }

  lemma MadeLonger(polling: bool, run: seq<Step>, n: nat, wi: Item)
    requires run != [] && MadeAt(polling, run[..|run| - 1], n, wi)
    ensures MadeAt(polling, run, n, wi)
  {
    hide After, KeyAfter;
    var r := run[..|run| - 1];
    assert r[..n] == run[..n] && r[n] == run[n];
  }

  /** Every queued item for the client was made by an accepted call, with the numbers, the
      timeout and the time of that call. */
  lemma {:induction false} ItemsAreMade(polling: bool, run: seq<Step>, wi: Item) returns (n: nat)
    requires !wi.kind.Internal? && Queued(After(Init(polling), run).t, wi)
    ensures MadeAt(polling, run, n, wi)
    decreases |run|
  {
    hide Apply, After, MadeAt, Queued, Requests, Calls;
    if run == [] {
      NoSteps(Init(polling));
      NoItems(polling, wi);
    } else {
      var k := |run| - 1;
      var r, e := run[..k], run[k];
      AfterLast(Init(polling), run);
      var s := After(Init(polling), r);
      if Queued(s.t, wi) {
        n := ItemsAreMade(polling, r, wi);
        MadeLonger(polling, run, n, wi);
      } else {
        n := k;
        NumbersInTurn(polling, r);
        MadeNow(polling, run, wi);
      }
    }
  }

  lemma NoItems(polling: bool, wi: Item)
    ensures !Queued(Init(polling).t, wi)
  {
  }

  lemma MadeNow(polling: bool, run: seq<Step>, wi: Item)
    requires run != [] && !wi.kind.Internal?
    requires var r := run[..|run| - 1];
             var s := After(Init(polling), r);
             && !Queued(s.t, wi) && Queued(Apply(s, run[|run| - 1]).t, wi)
             && NextReqId(s.c) == Requests(r) % 0xFFFF_FFFE + 1 && s.c.seqNum == Calls(r) % 0x1_0000_0000
    ensures MadeAt(polling, run, |run| - 1, wi)
  {
    hide Apply, After, Requests, Calls;
    var r, e := run[..|run| - 1], run[|run| - 1];
    var s := After(Init(polling), r);
    if IsCall(e) {
      NewEntry(s, e);
    } else {
      StepItems(s, e, wi);
    }
  }

  lemma {:induction false} CountsGrow(run: seq<Step>, m: nat, n: nat)
    requires m < n <= |run|
    ensures Requests(run[..m]) + (if run[m].DoRequest? then 1 else 0) <= Requests(run[..n])
    ensures Calls(run[..m]) + (if IsCall(run[m]) then 1 else 0) <= Calls(run[..n])
    decreases n
  {
    assert run[..n][..n - 1] == run[..n - 1] && run[..n][n - 1] == run[n - 1];
    if m < n - 1 {
      hide IsCall;
      CountsGrow(run, m, n - 1);
    }
  }

  /** As long as numbers have not come round, no two calls of a run have the same. */
  lemma NumbersDiffer(run: seq<Step>, m: nat, n: nat)
    requires FewCalls(run) && m < n < |run| && IsCall(run[m]) && IsCall(run[n])
    ensures KeyAfter(run[..m], run[m]) != KeyAfter(run[..n], run[n])
  {
    hide Requests, Calls;
    CountsGrow(run, m, n);
    CountsGrow(run, n, |run|);
    assert run[..|run|] == run;
  }

  /** Then an item with a call's number has the call's timeout and time. */
  lemma ItemHasNumbers(polling: bool, run: seq<Step>, n: nat, wi: Item)
    requires FewCalls(run) && n < |run| && IsCall(run[n])
    requires Queued(After(Init(polling), run).t, wi) && Carries(wi, KeyAfter(run[..n], run[n]))
    ensures wi.timeout == run[n].timeout && wi.ts == run[n].now
  {
    hide After, Queued, FewCalls, KeyAfter;
    var m := ItemsAreMade(polling, run, wi);
    if m < n {
      NumbersDiffer(run, m, n);
    } else if n < m {
      NumbersDiffer(run, n, m);
    }
  }

  // ---- Main results

  /** A call that waits has not been called back. */
  lemma WaitingNotCalled(polling: bool, run: seq<Step>, key: Key, token: nat, rc: int)
    requires Awaits(After(Init(polling), run).c, key, token)
    ensures Call(token, rc) !in After(Init(polling), run).c.called
  {
    Balanced(polling, run);
    hide Total, AcceptedTokens, After, ItemsBalance, AnswersBalance;
    var c := After(Init(polling), run).c;
    var i :| FirstAt(Entries(c, key), key, token, i);
    TotalCounts(Entries(c, key), i, PendingToken);
    AcceptedOnce(c.accepted, token);
    assert Total(Entries(c, key), PendingToken)[token] >= 1;
    if Call(token, rc) in c.called {
      var j :| 0 <= j < |c.called| && c.called[j] == Call(token, rc);
      TotalCounts(c.called, j, CallToken);
      assert false;
    }
  }

  lemma OneCodeEach(polling: bool, run: seq<Step>, token: nat, rc: int, rc2: int)
    requires var c := After(Init(polling), run).c; Call(token, rc) in c.called && Call(token, rc2) in c.called
    ensures rc == rc2
  {
    hide After;
    var c := After(Init(polling), run).c;
    var i :| 0 <= i < |c.called| && c.called[i] == Call(token, rc);
    CalledAtMostOnce(polling, run, i);
  }

  lemma FirstToldOnce(s: Sys, run: seq<Step>, key: Key, n: nat, rc: int, n2: nat, rc2: int)
    requires FirstTold(s, run, key, n, rc) && FirstTold(s, run, key, n2, rc2)
    ensures n == n2 && rc == rc2
  {
    hide After, Tells;
    assert n < n2 ==> TellsNothing(After(s, run[..n]), run[n], key);
    assert n2 < n ==> TellsNothing(After(s, run[..n2]), run[n2], key);
    if n == n2 {
      TellsOneCode(After(s, run[..n]), run[n], key, rc, rc2);
    }
  }

  /** From any moment on at which a call waits, first of those with its number and without
      an event queued for it: it has been called back with `rc` exactly when the first step
      to end it did so with `rc` and, when polling, a poll came after that step. */
  lemma CalledBackIff(polling: bool, before: seq<Step>, run: seq<Step>, key: Key, token: nat, rc: int)
    requires Reached(After(Init(polling), before).c, key, token, Open)
    ensures var s := After(Init(polling), before);
            Call(token, rc) in After(s, run).c.called
            <==> exists n :: FirstTold(s, run, key, n, rc) && (polling ==> PolledAfter(run, n))
  {
    hide After, Awaits, HasEvent, NoEvent, FirstTold, PolledAfter, UnderWay, Init;
    var s := After(Init(polling), before);
    QueuesMatchWrites(polling, before);
    PollingStays(polling, before);
    var f, n := RunReaches(s, run, key, token);
    AfterJoined(Init(polling), before, run);
    NothingTold(s, run, key);
    if f.Over? {
      forall m, rc2 | FirstTold(s, run, key, m, rc2)
        ensures m == n && rc2 == f.rc
      {
        FirstToldOnce(s, run, key, n, f.rc, m, rc2);
      }
      if Call(token, rc) in After(s, run).c.called {
        OneCodeEach(polling, before + run, token, rc, f.rc);
      }
    } else {
      WaitingNotCalled(polling, before + run, key, token, rc);
      if f.Told? {
        forall m, rc2 | FirstTold(s, run, key, m, rc2)
          ensures m == n
        {
          FirstToldOnce(s, run, key, n, f.rc, m, rc2);
        }
      }
    }
  }

  lemma NothingTold(s: Sys, run: seq<Step>, key: Key)
    ensures Silent(s, run, key) ==> forall n, rc :: !FirstTold(s, run, key, n, rc)
  {
    hide After, Tells;
  }

  lemma {:induction false} PollingStays(polling: bool, run: seq<Step>)
    ensures After(Init(polling), run).c.polling == polling
    decreases |run|
  {
    hide Apply, After, Reached;
    if run != [] {
      AfterLast(Init(polling), run);
      PollingStays(polling, run[..|run| - 1]);
      StepHeeds(After(Init(polling), run[..|run| - 1]), run[|run| - 1]);
    } else {
      NoSteps(Init(polling));
    }
  }

  lemma NoSteps(s: Sys)
    ensures After(s, []) == s
  {
  }

  /** Every accepted call of a run whose numbers have not come round, direct or polling: its
      callback has run with `rc` exactly when the first step behind it to end it ended it
      with `rc`, and a poll came after that when polling.  When polling, no early response
      with its id may lie in the event queue already. */
  lemma CallEndsIff(polling: bool, before: seq<Step>, e: Step, run: seq<Step>, rc: int)
    requires IsCall(e) && FewCalls(before + [e]) && e.encoded && After(Init(polling), before).t.conn != NotConn
    requires polling ==> NoEvent(After(Init(polling), before).c, KeyAfter(before, e))
    ensures var s := After(Init(polling), before);
            var u := Apply(s, e);
            Call(s.c.accepted, rc) in After(u, run).c.called
            <==> exists n :: FirstTold(u, run, KeyAfter(before, e), n, rc) && (polling ==> PolledAfter(run, n))
  {
    hide Apply, After, Requests, Calls, Awaits, FirstTold, PolledAfter;
    var key, s := KeyAfter(before, e), After(Init(polling), before);
    var u := Apply(s, e);
    AfterLast(Init(polling), before + [e]);
    assert (before + [e])[..|before + [e]| - 1] == before && (before + [e])[|before + [e]| - 1] == e;
    NumbersInTurn(polling, before);
    PollingStays(polling, before);
    FewBefore(before + [e]);
    FewHere(before + [e]);
    EntriesNumbered(polling, before);
    NewEntry(s, e);
    CallsKeepEvents(s, e);
    LastAwaits(s.c, u.c, key, s.c.accepted);
    CalledBackIff(polling, before + [e], run, key, s.c.accepted, rc);
  }

  lemma CallsKeepEvents(s: Sys, e: Step)
    requires IsCall(e)
    ensures Apply(s, e).c.events == s.c.events && Apply(s, e).c.polling == s.c.polling
  {
  }

  lemma LastAwaits(c: Client, d: Client, key: Key, token: nat)
    requires Entries(d, key) == Entries(c, key) + [Pending(key, token)] && forall p <- Entries(c, key) :: p.key != key
    ensures Awaits(d, key, token)
  {
    assert FirstAt(Entries(d, key), key, token, |Entries(c, key)|);
  }

  /** A sweep finds a call overdue exactly when its own timeout is set and over, counted from
      the moment of the call, and its item still waits to be written or for the response. */
  lemma OverdueIff(polling: bool, run: seq<Step>, n: nat, now: int)
    requires FewCalls(run) && n < |run| && IsCall(run[n])
    ensures var t, key := After(Init(polling), run).t, KeyAfter(run[..n], run[n]);
            var over := run[n].timeout != -1 && now > run[n].now + run[n].timeout;
            && (Overdue(t.connPending, key, now) <==> over && Carried(t.connPending, key))
            && (Overdue(t.writeWait, key, now) <==> over && Carried(t.writeWait, key))
            && (Overdue(t.respPending, key, now) <==> over && Carried(t.respPending, key))
  {
    hide After, FewCalls, KeyAfter, Carries;
    var t, key := After(Init(polling), run).t, KeyAfter(run[..n], run[n]);
    forall wi | Queued(t, wi) && Carries(wi, key)
      ensures wi.timeout == run[n].timeout && wi.ts == run[n].now
    {
      ItemHasNumbers(polling, run, n, wi);
    }
    assert forall i :: 0 <= i < |t.connPending| ==> Queued(t, t.connPending[i]);
    assert forall i :: 0 <= i < |t.writeWait| ==> Queued(t, t.writeWait[i]);
    assert forall i :: 0 <= i < |t.respPending| ==> Queued(t, t.respPending[i]);
  }
}
