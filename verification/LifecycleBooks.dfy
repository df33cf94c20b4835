/** The books of the transport and its client: every write item is in one queue,
    every waiting entry will be answered, every accepted call is answered once. */
module LifecycleBooks {
  import opened Basics
  import opened Lifecycle

  // ---- Counting

  /** The multiset sum of `f` over a sequence. */
  function Total<A, T>(xs: seq<A>, f: A -> multiset<T>): multiset<T> {
    if xs == [] then multiset{} else f(xs[0]) + Total(xs[1..], f)
  }

  lemma {:induction false} TotalConcat<A, T>(a: seq<A>, b: seq<A>, f: A -> multiset<T>)
    ensures Total(a + b, f) == Total(a, f) + Total(b, f)
  {
    if a == [] {
      assert a + b == b;
    } else {
      assert (a + b)[0] == a[0] && (a + b)[1..] == a[1..] + b;
      TotalConcat(a[1..], b, f);
    }
  }

  lemma TotalOne<A, T>(x: A, f: A -> multiset<T>)
    ensures Total([x], f) == f(x)
  {
    assert Total([x][1..], f) == multiset{};
  }

  lemma TotalAppend<A, T>(a: seq<A>, x: A, f: A -> multiset<T>)
    ensures Total(a + [x], f) == Total(a, f) + f(x)
  {
    TotalConcat(a, [x], f);
    TotalOne(x, f);
  }

  lemma {:induction false} TotalRemove<A, T>(xs: seq<A>, i: nat, f: A -> multiset<T>)
    requires i < |xs|
    ensures Total(xs, f) == Total(RemoveAt(xs, i), f) + f(xs[i])
  {
    if i == 0 {
      assert RemoveAt(xs, 0) == xs[1..];
    } else {
      var r := RemoveAt(xs, i);
      assert r[0] == xs[0] && r[1..] == RemoveAt(xs[1..], i - 1);
      TotalRemove(xs[1..], i - 1, f);
    }
  }

  lemma MultisetRemove<A>(xs: seq<A>, i: nat)
    requires i < |xs|
    ensures multiset(xs) - multiset{xs[i]} == multiset(RemoveAt(xs, i))
  {
    assert xs == xs[..i] + [xs[i]] + xs[i + 1..];
  }

  /** The order does not matter. */
  lemma {:induction false} TotalPermuted<A, T>(a: seq<A>, b: seq<A>, f: A -> multiset<T>)
    requires multiset(a) == multiset(b)
    ensures Total(a, f) == Total(b, f)
  {
    if a == [] {
      assert |multiset(b)| == 0;
    } else {
      assert a[0] in multiset(b);
      var i :| 0 <= i < |b| && b[i] == a[0];
      MultisetRemove(a, 0);
      MultisetRemove(b, i);
      assert RemoveAt(a, 0) == a[1..];
      assert multiset(a[1..]) == multiset(RemoveAt(b, i));
      TotalPermuted(a[1..], RemoveAt(b, i), f);
      TotalRemove(b, i, f);
    }
  }

  /** A selection and its complement make up the whole. */
  lemma {:induction false} SelectSplits(items: seq<Item>, now: int)
    ensures multiset(Select(items, now, false)) + multiset(Select(items, now, true)) == multiset(items)
  {
    if items != [] {
      SelectSplits(items[1..], now);
      assert items == [items[0]] + items[1..];
    }
  }

  lemma WithoutOne<T>(a: multiset<T>, b: multiset<T>, x: T)
    ensures a + multiset{x} + b - multiset{x} == a + b == b + (a + multiset{x}) - multiset{x}
  {}

  lemma WithoutNone<T>(a: multiset<T>, x: T)
    requires a[x] == 0
    ensures a - multiset{x} == a
  {}

  lemma SetWithOne<T>(s: set<T>, x: T)
    requires x !in s
    ensures multiset(s + {x}) == multiset(s) + multiset{x}
  {}

  lemma SetWithoutOne<T>(s: set<T>, m: multiset<T>, x: T)
    requires multiset(s) == m + multiset{x}
    ensures multiset(s - {x}) == m
  {
    assert multiset(s)[x] == m[x] + 1;
    forall y
      ensures multiset(s - {x})[y] == m[y]
    {
      assert y != x ==> multiset(s)[y] == m[y];
    }
  }

  function IdOf(wi: Item): multiset<nat> { multiset{wi.id} }

  function SlotOf(wi: Item): multiset<nat> {
    if wi.slot.Some? then multiset{wi.slot.value} else multiset{}
  }

  /** The answer the transport owes the client for an item. */
  function Owed(wi: Item): multiset<Key> {
    if wi.kind.Internal? then multiset{} else multiset{KeyOf(wi)}
  }

  function EventKey(e: Event): multiset<Key> { multiset{e.key} }
  function PendingKey(p: Pending): multiset<Key> { multiset{p.key} }
  function PendingToken(p: Pending): multiset<nat> { multiset{p.token} }
  function CallToken(c: Call): multiset<nat> { multiset{c.token} }

  function AcceptedTokens(n: nat): multiset<nat> {
    if n == 0 then multiset{} else AcceptedTokens(n - 1) + multiset{n - 1}
  }

  function BusySlots(busy: seq<bool>): set<nat> {
    set i | 0 <= i < |busy| && busy[i]
  }

  lemma {:induction false} NoSuchKey(ps: seq<Pending>, key: Key)
    requires IndexOf(ps, key) == |ps| || forall i :: 0 <= i < |ps| ==> ps[i].key != key
    ensures Total(ps, PendingKey)[key] == 0
  {
    if ps != [] {
      NoSuchKey(ps[1..], key);
    }
  }

  // ---- The books: items in the queues, or in the hand of a running callback

  function Linked(t: Trans): seq<Item> {
    t.connPending + t.writeWait + t.writing + t.respPending
  }

  function AllWaiting(c: Client): multiset<Key> {
    Total(c.requests, PendingKey) + Total(c.notifies, PendingKey)
  }

  /** Each live item is in exactly one queue (or in hand), and a preallocated slot is
      busy exactly while its item is. */
  ghost predicate ItemsBalance(t: Trans, hand: seq<Item>) {
    && |t.busy| == SLOTS
    && Total(Linked(t), IdOf) + Total(hand, IdOf) == multiset(t.live)
    && Total(Linked(t), SlotOf) + Total(hand, SlotOf) == multiset(BusySlots(t.busy))
    && forall id <- t.live :: id < t.nextId
  }

  /** No waiting entry is forgotten: an item or a queued event will answer it. */
  ghost predicate AnswersBalance(s: Sys, hand: seq<Item>) {
    && AllWaiting(s.c) <= Total(Linked(s.t), Owed) + Total(hand, Owed) + Total(s.c.events, EventKey)
    && (!s.c.polling ==> s.c.events == [])
  }

  function AllTokens(c: Client): multiset<nat> {
    Total(c.requests, PendingToken) + Total(c.notifies, PendingToken) + Total(c.called, CallToken)
  }

  ghost predicate KeysFit(c: Client) {
    && (forall i :: 0 <= i < |c.requests| ==> c.requests[i].key.ReqKey?)
    && (forall i :: 0 <= i < |c.notifies| ==> c.notifies[i].key.SeqKey?)
  }

  /** Each accepted call is either waiting or has been called back, once. */
  ghost predicate CallsBalance(c: Client) {
    && AllTokens(c) == AcceptedTokens(c.accepted)
    && KeysFit(c)
    && c.seqNum < UINT && c.reqIdSeq < UINT
  }

  ghost predicate Books(s: Sys, hand: seq<Item>) {
    ItemsBalance(s.t, hand) && AnswersBalance(s, hand) && CallsBalance(s.c)
  }

  // ---- Delivering and finishing

  lemma DeliverBalances(c: Client, key: Key, rc: int)
    requires CallsBalance(c)
    ensures var d := Deliver(c, key, rc);
            && CallsBalance(d)
            && AllWaiting(d) == AllWaiting(c) - multiset{key}
            && d.events == c.events && d.polling == c.polling && d.accepted == c.accepted
  {
    hide Total, AcceptedTokens, CallsBalance;
    if key.ReqKey? {
      UnlinkBalances(c, key, rc);
    } else {
      UnlinkNotifyBalances(c, key, rc);
    }
  }

  lemma UnlinkBalances(c: Client, key: Key, rc: int)
    requires CallsBalance(c) && key.ReqKey?
    ensures CallsBalance(Deliver(c, key, rc)) && AllWaiting(Deliver(c, key, rc)) == AllWaiting(c) - multiset{key}
  {
    hide Total, AcceptedTokens, AllTokens;
    var i := IndexOf(c.requests, key);
    if i == |c.requests| {
      NoSuchKey(c.requests, key);
      NoSuchKey(c.notifies, key);
      WithoutNone(AllWaiting(c), key);
    } else {
      TotalRemove(c.requests, i, PendingKey);
      WithoutOne(Total(RemoveAt(c.requests, i), PendingKey), Total(c.notifies, PendingKey), key);
      UnlinkTokens(c, c.requests, c.notifies, i, rc);
    }
  }

  lemma UnlinkNotifyBalances(c: Client, key: Key, rc: int)
    requires CallsBalance(c) && key.SeqKey?
    ensures CallsBalance(Deliver(c, key, rc)) && AllWaiting(Deliver(c, key, rc)) == AllWaiting(c) - multiset{key}
  {
    hide Total, AcceptedTokens, AllTokens;
    var i := IndexOf(c.notifies, key);
    if i == |c.notifies| {
      NoSuchKey(c.requests, key);
      NoSuchKey(c.notifies, key);
      WithoutNone(AllWaiting(c), key);
    } else {
      TotalRemove(c.notifies, i, PendingKey);
      WithoutOne(Total(RemoveAt(c.notifies, i), PendingKey), Total(c.requests, PendingKey), key);
      UnlinkTokens(c, c.notifies, c.requests, i, rc);
    }
  }

  /** The token of an unlinked entry moves to the callbacks that have run. */
  lemma UnlinkTokens(c: Client, ps: seq<Pending>, others: seq<Pending>, i: nat, rc: int)
    requires i < |ps| && ((ps == c.requests && others == c.notifies) || (ps == c.notifies && others == c.requests))
    ensures var called := c.called + [Call(ps[i].token, rc)];
            && (ps == c.requests ==> AllTokens(c.(requests := RemoveAt(ps, i), called := called)) == AllTokens(c))
            && (ps == c.notifies ==> AllTokens(c.(notifies := RemoveAt(ps, i), called := called)) == AllTokens(c))
  {
    TotalRemove(ps, i, PendingToken);
    TotalAppend(c.called, Call(ps[i].token, rc), CallToken);
    hide Total;
  }

  lemma ReportBalances(c: Client, key: Key, rc: int)
    requires CallsBalance(c) && (!c.polling ==> c.events == [])
    ensures var d := Report(c, key, rc);
            && CallsBalance(d)
            && d.polling == c.polling && d.accepted == c.accepted
            && (!d.polling ==> d.events == [])
            && (if c.polling
                then AllWaiting(d) == AllWaiting(c)
                  && Total(d.events, EventKey) == Total(c.events, EventKey) + multiset{key}
                else AllWaiting(d) == AllWaiting(c) - multiset{key} && d.events == c.events)
  {
    hide Deliver, Total;
    if c.polling {
      TotalAppend(c.events, Event(key, rc), EventKey);
    } else {
      DeliverBalances(c, key, rc);
    }
  }

  lemma ReleaseBalances(t: Trans, wi: Item, rest: seq<Item>)
    requires ItemsBalance(t, [wi] + rest)
    ensures ItemsBalance(Release(t, wi), rest)
  {
    hide Total;
    TotalConcat([wi], rest, IdOf);
    TotalConcat([wi], rest, SlotOf);
    TotalOne(wi, IdOf);
    TotalOne(wi, SlotOf);
    var u := Release(t, wi);
    assert Linked(u) == Linked(t);
    SetWithoutOne(t.live, Total(Linked(t), IdOf) + Total(rest, IdOf), wi.id);
    if wi.slot.Some? {
      var slots := Total(Linked(t), SlotOf) + Total(rest, SlotOf);
      SetWithoutOne(BusySlots(t.busy), slots, wi.slot.value);
      assert multiset(BusySlots(t.busy))[wi.slot.value] >= 1;
      assert BusySlots(u.busy) == BusySlots(t.busy) - {wi.slot.value};
    }
  }

  lemma FinishBalances(s: Sys, wi: Item, rest: seq<Item>, rc: int)
    requires Books(s, [wi] + rest)
    ensures Books(Finish(s, wi, rc), rest)
  {
    hide Total, Report, ItemsBalance, CallsBalance;
    ReleaseBalances(s.t, wi, rest);
    assert Linked(Release(s.t, wi)) == Linked(s.t);
    TotalConcat([wi], rest, Owed);
    TotalOne(wi, Owed);
    if !wi.kind.Internal? {
      ReportBalances(s.c, KeyOf(wi), rc);
    }
  }

  lemma {:induction false} FinishAllBalances(s: Sys, items: seq<Item>, rest: seq<Item>, rc: int)
    requires Books(s, items + rest)
    ensures Books(FinishAll(s, items, rc), rest)
    decreases items
  {
    hide Books, Finish;
    if items == [] {
      assert items + rest == rest;
    } else {
      assert items + rest == [items[0]] + (items[1..] + rest);
      FinishBalances(s, items[0], items[1..] + rest, rc);
      FinishAllBalances(Finish(s, items[0], rc), items[1..], rest, rc);
    }
  }

  // ---- Moving items between the queues and the hand

  lemma TotalHeld<T>(t: Trans, hand: seq<Item>, u: Trans, held: seq<Item>, f: Item -> multiset<T>)
    requires multiset(Linked(u)) + multiset(held) == multiset(Linked(t)) + multiset(hand)
    ensures Total(Linked(u), f) + Total(held, f) == Total(Linked(t), f) + Total(hand, f)
  {
    TotalPermuted(Linked(u) + held, Linked(t) + hand, f);
    TotalConcat(Linked(u), held, f);
    TotalConcat(Linked(t), hand, f);
  }

  predicate SameItems(t: Trans, u: Trans) {
    u.live == t.live && u.busy == t.busy && u.nextId == t.nextId
  }

  lemma Rearranged(s: Sys, hand: seq<Item>, u: Trans, held: seq<Item>)
    requires Books(s, hand) && SameItems(s.t, u)
    requires multiset(Linked(u)) + multiset(held) == multiset(Linked(s.t)) + multiset(hand)
    ensures Books(s.(t := u), held)
  {
    hide Linked, Total;
    TotalHeld(s.t, hand, u, held, IdOf);
    TotalHeld(s.t, hand, u, held, SlotOf);
    TotalHeld(s.t, hand, u, held, Owed);
  }

  lemma AllocateBalances(t: Trans, wi: Item)
    requires ItemsBalance(t, []) && wi.id == t.nextId
    requires wi.slot == if FirstIdle(t.busy) < |t.busy| then Some(FirstIdle(t.busy)) else None
    ensures ItemsBalance(Allocate(t, wi), [wi])
  {
    hide FirstIdle;
    var u := Allocate(t, wi);
    assert Linked(u) == Linked(t);
    assert Total<Item, nat>([], IdOf) == multiset{} && Total<Item, nat>([], SlotOf) == multiset{};
    TotalOne(wi, IdOf);
    TotalOne(wi, SlotOf);
    hide Total, Linked;
    SetWithOne(t.live, wi.id);
    if wi.slot.Some? {
      SetWithOne(BusySlots(t.busy), wi.slot.value);
      assert BusySlots(u.busy) == BusySlots(t.busy) + {wi.slot.value};
    }
  }

  /** A fresh item in hand, together with the entry it will answer. */
  lemma AddBalances(s: Sys, c: Client, kind: Kind, seqNum: nat, reqId: nat, timeout: int, now: int)
    requires Books(s, [])
    requires CallsBalance(c) && c.events == s.c.events && c.polling == s.c.polling
    requires AllWaiting(c) == AllWaiting(s.c) + Owed(NewItem(s.t, kind, seqNum, reqId, timeout, now))
          || AllWaiting(c) == AllWaiting(s.c)
    ensures var wi := NewItem(s.t, kind, seqNum, reqId, timeout, now);
            Books(Sys(c, Allocate(s.t, wi)), [wi])
  {
    var wi := NewItem(s.t, kind, seqNum, reqId, timeout, now);
    AllocateBalances(s.t, wi);
    assert Linked(Allocate(s.t, wi)) == Linked(s.t);
    TotalOne(wi, Owed);
    assert Total<Item, Key>([], Owed) == multiset{};
    hide Total, Linked, ItemsBalance, CallsBalance;
  }

  // ---- Every step keeps the books

  lemma ResetBalances(s: Sys)
    requires Books(s, [])
    ensures Books(Reset(s), [])
  {
    hide Books, FinishAll;
    var all := s.t.writing + s.t.connPending + s.t.writeWait + s.t.respPending;
    var u := s.t.(conn := NotConn, connPending := [], writeWait := [], writing := [], respPending := [], wire := []);
    Rearranged(s, [], u, all);
    assert all + [] == all;
    FinishAllBalances(s.(t := u), all, [], RC_RESET);
  }

  lemma ReconnBalances(s: Sys, again: bool)
    requires Books(s, [])
    ensures Books(Reconn(s, again), [])
  {
    hide Books, Reset;
    ResetBalances(s);
    var r := Reset(s);
    Rearranged(r, [], r.t.(conn := if again then Connecting else NotConn), []);
  }

  lemma RequestBalances(s: Sys, encoded: bool, timeout: int, now: int)
    requires Books(s, [])
    ensures Books(Request(s, encoded, timeout, now), [])
  {
    hide Total, Linked, AcceptedTokens, NewItem, ItemsBalance;
    var id := NextReqId(s.c);
    var c0 := s.c.(seqNum := (s.c.seqNum + 1) % UINT, reqIdSeq := (id + 1) % UINT);
    if SendAccepted(s.t, encoded) {
      var p := Pending(ReqKey(id), s.c.accepted);
      var c := c0.(requests := s.c.requests + [p], accepted := s.c.accepted + 1);
      EntryBalances(s.c, c, p);
      EntryWaits(s.c, c, p);
      SendBalances(s, c, s.c.seqNum, id, timeout, now);
    }
  }

  lemma NotifyBalances(s: Sys, encoded: bool, timeout: int, now: int)
    requires Books(s, [])
    ensures Books(NotifyCall(s, encoded, timeout, now), [])
  {
    hide Total, Linked, AcceptedTokens, NewItem, ItemsBalance;
    var c0 := s.c.(seqNum := (s.c.seqNum + 1) % UINT);
    if SendAccepted(s.t, encoded) {
      var p := Pending(SeqKey(s.c.seqNum), s.c.accepted);
      var c := c0.(notifies := s.c.notifies + [p], accepted := s.c.accepted + 1);
      EntryBalances(s.c, c, p);
      EntryWaits(s.c, c, p);
      SendBalances(s, c, s.c.seqNum, NOTIFY_PUSH_REQ_ID, timeout, now);
    }
  }

  /** A new entry at the end of its queue, under the next token. */
  predicate Enters(c: Client, d: Client, p: Pending) {
    && p.token == c.accepted && d.accepted == c.accepted + 1
    && d.called == c.called && d.events == c.events && d.polling == c.polling
    && d.seqNum < UINT && d.reqIdSeq < UINT
    && d.requests == (if p.key.ReqKey? then c.requests + [p] else c.requests)
    && d.notifies == (if p.key.SeqKey? then c.notifies + [p] else c.notifies)
  }

  lemma EntryBalances(c: Client, d: Client, p: Pending)
    requires CallsBalance(c) && Enters(c, d, p)
    ensures CallsBalance(d)
  {
    assert AcceptedTokens(d.accepted) == AcceptedTokens(c.accepted) + multiset{p.token};
    EntryTokens(c, d, p);
    EntryKeys(c, d, p);
    hide AcceptedTokens, AllTokens, KeysFit;
  }

  lemma EntryKeys(c: Client, d: Client, p: Pending)
    requires KeysFit(c) && Enters(c, d, p)
    ensures KeysFit(d)
  {}

  lemma EntryTokens(c: Client, d: Client, p: Pending)
    requires Enters(c, d, p)
    ensures AllTokens(d) == AllTokens(c) + multiset{p.token}
  {
    TotalAppend(if p.key.ReqKey? then c.requests else c.notifies, p, PendingToken);
    AddOne(Total(c.requests, PendingToken), Total(c.notifies, PendingToken), Total(c.called, CallToken), p.token);
    hide Total;
  }

  lemma EntryWaits(c: Client, d: Client, p: Pending)
    requires Enters(c, d, p)
    ensures AllWaiting(d) == AllWaiting(c) + multiset{p.key}
  {
    TotalAppend(if p.key.ReqKey? then c.requests else c.notifies, p, PendingKey);
    AddOne(Total(c.requests, PendingKey), Total(c.notifies, PendingKey), multiset{}, p.key);
    hide Total;
  }

  lemma AddOne<T>(a: multiset<T>, b: multiset<T>, c: multiset<T>, x: T)
    ensures (a + multiset{x}) + b + c == a + b + c + multiset{x}
    ensures a + (b + multiset{x}) + c == a + b + c + multiset{x}
    ensures (a + multiset{x}) + b == a + b + multiset{x} == a + (b + multiset{x})
  {}

  lemma SendBalances(s: Sys, c: Client, seqNum: nat, reqId: nat, timeout: int, now: int)
    requires Books(s, []) && CallsBalance(c) && c.events == s.c.events && c.polling == s.c.polling
    requires AllWaiting(c) == AllWaiting(s.c)
           + multiset{if reqId == NOTIFY_PUSH_REQ_ID then SeqKey(seqNum) else ReqKey(reqId)}
    ensures Books(Sys(c, Send(s.t, seqNum, reqId, timeout, now)), [])
  {
    hide Books, CallsBalance, AllWaiting, Allocate;
    var kind := if reqId == NOTIFY_PUSH_REQ_ID then Notify else Resp;
    var wi := NewItem(s.t, kind, seqNum, reqId, timeout, now);
    AddBalances(s, c, kind, seqNum, reqId, timeout, now);
    Rearranged(Sys(c, Allocate(s.t, wi)), [wi], Send(s.t, seqNum, reqId, timeout, now), []);
  }

  lemma AddInternalBalances(s: Sys, frame: Frame, now: int)
    requires Books(s, [])
    ensures Books(s.(t := AddInternal(s.t, frame, now)), [])
  {
    hide Total, CallsBalance, AllWaiting, Allocate;
    var wi := NewItem(s.t, Internal(frame), INVALID_REQ_ID, INVALID_REQ_ID, WITHOUT_TIMEOUT, now);
    AddBalances(s, s.c, Internal(frame), INVALID_REQ_ID, INVALID_REQ_ID, WITHOUT_TIMEOUT, now);
    hide Books;
    Rearranged(Sys(s.c, Allocate(s.t, wi)), [wi], AddInternal(s.t, frame, now), []);
  }

  lemma WriteAsyncBalances(s: Sys, ret: int)
    requires Books(s, [])
    ensures Books(WriteAsync(s, ret), [])
  {
    hide Books, FinishAll, Linked;
    if s.t.conn != NotConn && !s.t.isWriting {
      var t := if s.t.conn == Done then s.t.(writeWait := s.t.writeWait + s.t.connPending, connPending := []) else s.t;
      MergeKeepsItems(s.t);
      Rearranged(s, [], t, []);
      if t.writeWait != [] {
        var u := t.(writing := t.writing + t.writeWait, writeWait := []);
        BatchKeepsItems(t);
        if ret == 0 {
          Rearranged(s.(t := t), [], u.(isWriting := true, wire := t.wire + t.writeWait), []);
        } else {
          Rearranged(s.(t := t), [], u.(writing := []), u.writing);
          assert u.writing + [] == u.writing;
          FinishAllBalances(s.(t := u.(writing := [])), u.writing, [], ret);
        }
      }
    }
  }

  lemma MergeKeepsItems(t: Trans)
    ensures multiset(Linked(t.(writeWait := t.writeWait + t.connPending, connPending := []))) == multiset(Linked(t))
  {}

  lemma BatchKeepsItems(t: Trans)
    ensures var u := t.(writing := t.writing + t.writeWait, writeWait := []);
            && multiset(Linked(u.(isWriting := true, wire := t.wire + t.writeWait))) == multiset(Linked(t))
            && multiset(Linked(u.(writing := []))) + multiset(u.writing) == multiset(Linked(t))
  {}

  lemma {:induction false} WrittenBalances(s: Sys, items: seq<Item>, status: int)
    requires Books(s, items)
    ensures Books(Written(s, items, status), [])
    decreases items
  {
    hide Books, Finish;
    if items != [] {
      assert items == [items[0]] + items[1..];
      if status == RC_OK && items[0].kind.Resp? {
        var u := s.t.(respPending := s.t.respPending + [items[0]]);
        Rearranged(s, items, u, items[1..]);
        WrittenBalances(s.(t := u), items[1..], status);
      } else {
        FinishBalances(s, items[0], items[1..], status);
        WrittenBalances(Finish(s, items[0], status), items[1..], status);
      }
    }
  }

  lemma WriteDoneBalances(s: Sys, good: bool)
    requires Books(s, [])
    ensures Books(WriteDone(s, good), [])
  {
    hide Books, Written;
    var u := s.t.(isWriting := false, writing := []);
    Rearranged(s, [], u, s.t.writing);
    WrittenBalances(s.(t := u), s.t.writing, if good then RC_OK else RC_ERROR);
  }

  lemma DropBalances(s: Sys, u: Trans, dropped: seq<Item>)
    requires Books(s, []) && SameItems(s.t, u)
    requires multiset(Linked(u)) + multiset(dropped) == multiset(Linked(s.t))
    ensures Books(FinishAll(s.(t := u), dropped, RC_TIMEOUT), [])
  {
    hide Books, FinishAll;
    Rearranged(s, [], u, dropped);
    assert dropped + [] == dropped;
    FinishAllBalances(s.(t := u), dropped, [], RC_TIMEOUT);
  }

  lemma CheckTimeoutBalances(s: Sys, now: int)
    requires Books(s, [])
    ensures Books(CheckTimeout(s, now), [])
  {
    hide Books, FinishAll, Select;
    SelectSplits(s.t.connPending, now);
    var t1 := s.t.(connPending := Select(s.t.connPending, now, false));
    DropBalances(s, t1, Select(s.t.connPending, now, true));
    var s1 := FinishAll(s.(t := t1), Select(s.t.connPending, now, true), RC_TIMEOUT);
    SelectSplits(s1.t.writeWait, now);
    var t2 := s1.t.(writeWait := Select(s1.t.writeWait, now, false));
    DropBalances(s1, t2, Select(s1.t.writeWait, now, true));
    var s2 := FinishAll(s1.(t := t2), Select(s1.t.writeWait, now, true), RC_TIMEOUT);
    SelectSplits(s2.t.respPending, now);
    var t3 := s2.t.(respPending := Select(s2.t.respPending, now, false));
    DropBalances(s2, t3, Select(s2.t.respPending, now, true));
  }

  lemma ResponseBalances(s: Sys, reqId: nat)
    requires Books(s, []) && forall wi <- s.t.respPending :: wi.kind.Resp?
    ensures Books(Response(s, reqId), [])
  {
    hide Total, CallsBalance, ItemsBalance, AllWaiting, Report, Linked;
    var key := ReqKey(reqId);
    var events := Total(s.c.events, EventKey);
    ReportBalances(s.c, key, RC_OK);
    var i := IndexOfItem(s.t.respPending, reqId);
    if i == |s.t.respPending| {
      AnswerOne(AllWaiting(s.c), Total(Linked(s.t), Owed) + Total<Item, Key>([], Owed), events, key);
    } else {
      var wi := s.t.respPending[i];
      var u := s.t.(respPending := RemoveAt(s.t.respPending, i));
      TakeFromHand(s, u, wi, i);
      AnswerOne(AllWaiting(s.c), Total(Linked(u), Owed) + Total<Item, Key>([], Owed), events, key);
    }
  }

  /** An item leaves the response queue and is released. */
  lemma TakeFromHand(s: Sys, u: Trans, wi: Item, i: nat)
    requires Books(s, []) && i < |s.t.respPending| && wi == s.t.respPending[i]
    requires u == s.t.(respPending := RemoveAt(s.t.respPending, i))
    ensures ItemsBalance(Release(u, wi), []) && Linked(Release(u, wi)) == Linked(u)
    ensures AllWaiting(s.c)
         <= Total(Linked(u), Owed) + Total<Item, Key>([], Owed) + Owed(wi) + Total(s.c.events, EventKey)
  {
    hide ItemsBalance, CallsBalance, AllWaiting;
    assert s.t.respPending == s.t.respPending[..i] + [wi] + s.t.respPending[i + 1..];
    Rearranged(s, [], u, [wi]);
    assert [wi] + [] == [wi];
    ReleaseBalances(u, wi, []);
    TotalOne(wi, Owed);
    assert Total<Item, Key>([], Owed) == multiset{};
  }

  lemma AnswerOne<T>(waiting: multiset<T>, owed: multiset<T>, queued: multiset<T>, x: T)
    ensures waiting <= owed + queued ==>
            waiting <= owed + (queued + multiset{x}) && waiting - multiset{x} <= owed + queued
    ensures waiting <= owed + multiset{x} + queued ==>
            waiting <= owed + (queued + multiset{x}) && waiting - multiset{x} <= owed + queued
  {}

  lemma CallsIgnoreEvents(c: Client, events: seq<Event>)
    requires CallsBalance(c)
    ensures CallsBalance(c.(events := events)) && AllWaiting(c.(events := events)) == AllWaiting(c)
  {}

  lemma {:induction false} PollBalances(s: Sys)
    requires Books(s, []) && s.c.polling
    ensures Books(s.(c := Poll(s.c)), []) && Poll(s.c).events == []
    decreases |s.c.events|
  {
    if s.c.events != [] {
      var e := s.c.events[0];
      assert Total(s.c.events, EventKey) == EventKey(e) + Total(s.c.events[1..], EventKey);
      hide Total, Deliver, Linked, ItemsBalance, CallsBalance;
      var c := s.c.(events := s.c.events[1..]);
      CallsIgnoreEvents(s.c, c.events);
      DeliverBalances(c, e.key, e.rc);
      PollBalances(s.(c := Deliver(c, e.key, e.rc)));
    }
  }
}
