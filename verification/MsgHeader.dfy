/** The message layer: a flag byte, a varint id for requests and responses, a route string
    or a route code, and the body. */
module MsgHeader {
  import opened Basics
  import opened Framing
  import opened Words

  /** PC_MSG_REQUEST, PC_MSG_NOTIFY, PC_MSG_RESPONSE, PC_MSG_PUSH */
  const REQUEST := 0
  const NOTIFY := 1
  const RESPONSE := 2
  const PUSH := 3

  const NOTIFY_PUSH_REQ_ID := 0
  const INVALID_REQ_ID := 0xFFFF_FFFF

  predicate HasId(kind: nat) {
    kind == REQUEST || kind == RESPONSE
  }

  predicate HasRoute(kind: nat) {
    kind != RESPONSE
  }

  datatype Route = NoRoute | Text(text: Bytes) | Code(code: nat)

  /** pc__msg_raw_t */
  datatype Raw = Raw(id: nat, kind: nat, compressed: bool, route: Route, body: Bytes)

  /** What pc_msg_decode_to_raw comes to: a message, NULL, a failed assertion, or a copy
      that runs out of the input. */
  datatype Outcome = Got(raw: Raw) | Refused | Aborted | Wild

  // ---- Encoding

  function RouteBytes(route: Bytes): Bytes {
    [|route| % 0x1_0000 % 0x100] + route[..|route| % 0x1_0000]
  }

  /** The bytes pc_msg_encode_route writes for a request or a notify. */
  function EncodeRoute(id: nat, kind: nat, route: Bytes, body: Bytes): Bytes
    requires kind < 128
  {
    [kind * 2] + (if HasId(kind) then Varint(id) else []) + RouteBytes(route) + body
  }

  function CodeBytes(code: int): Bytes {
    [code / 0x100 % 0x100, code % 0x100]
  }

  function EncodeCode(id: nat, kind: nat, code: int, body: Bytes): Bytes
    requires kind < 128
  {
    [kind * 2 + 1] + (if HasId(kind) then Varint(id) else []) + CodeBytes(code) + body
  }

  // ---- Decoding

  /** The varint loop: the id so far, groups read, and what is left; ids are 32-bit. */
  function ReadId(id: nat, i: nat, b: Bytes): (r: Option<(nat, Bytes)>)
    ensures r.Some? ==> |r.value.1| < |b|
    decreases |b|
  {
    if b == [] then None
    else
      var next := (id + b[0] % 128 * Pow2(7 * i)) % U32;
      if b[0] >= 128 then ReadId(next, i + 1, b[1..]) else Some((next, b[1..]))
  }

  /** The route and the body after it. */
  datatype Rest = Found(route: Route, body: Bytes) | Short | Outside

  /** `offset` is where `b` starts in the message: the length byte is a plain char, so
      from 128 on it is negative and the bounds test wraps round. */
  function ReadRoute(compressed: bool, offset: nat, b: Bytes): Rest {
    if compressed then
      if |b| < 2 then Short else Found(Code(b[0] as int * 0x100 + b[1] as int), b[2..])
    else if b == [] then Short
    else if b[0] >= 128 then
      if offset + 1 + b[0] as int - 0x100 >= 1 then Outside else Short
    else if |b| - 1 < b[0] as int then Short
    else Found(Text(b[1..1 + b[0] as int]), b[1 + b[0] as int..])
  }

  /** pc_msg_decode_to_raw. */
  function Decode(b: Bytes): Outcome {
    if b == [] then Refused
    else
      var kind := b[0] / 2;
      var compressed := b[0] % 2 == 1;
      if kind > PUSH then Refused
      else
        var id := if HasId(kind) then ReadId(0, 0, b[1..]) else Some((NOTIFY_PUSH_REQ_ID, b[1..]));
        if id == None then Refused
        else
          var (n, rest) := id.value;
          var route := if HasRoute(kind) then ReadRoute(compressed, |b| - |rest|, rest)
                       else Found(if compressed then Code(0) else NoRoute, rest);
          match route
          case Short => Refused
          case Outside => Wild
          case Found(r, body) => if n == INVALID_REQ_ID then Aborted else Got(Raw(n, kind, compressed, r, body))
  }

  // ---- Round trips

  /** One group of seven bits at place value `p`. */
  lemma Group(acc: nat, v: nat, p: nat)
    requires acc + v * p < U32
    ensures acc + v % 128 * p < U32 && (v < 128 ==> v % 128 == v)
    ensures acc + v % 128 * p + v / 128 * (128 * p) == acc + v * p
  {
    var q, r := v / 128, v % 128;
    assert v == q * 128 + r;
    assert v * p == q * 128 * p + r * p;
    assert q * (128 * p) == q * 128 * p;
  }

  lemma ReadIdStep(id: nat, i: nat, c: Byte, t: Bytes)
    requires id + c % 128 * Pow2(7 * i) < U32
    ensures ReadId(id, i, [c] + t)
         == if c >= 128 then ReadId(id + c % 128 * Pow2(7 * i), i + 1, t) else Some((id + c % 128 * Pow2(7 * i), t))
  {
    hide Pow2;
    assert ([c] + t)[1..] == t;
  }

  /** Reading what Varint wrote adds the value at its place. */
  lemma {:induction false} IdReads(acc: nat, i: nat, v: nat, rest: Bytes)
    requires acc + v * Pow2(7 * i) < U32
    ensures ReadId(acc, i, Varint(v) + rest) == Some((acc + v * Pow2(7 * i), rest))
    decreases v
  {
    hide Pow2, ReadId;
    var p := Pow2(7 * i);
    Group(acc, v, p);
    if v < 128 {
      ReadIdStep(acc, i, v, rest);
    } else {
      Pow2Step7(7 * i);
      assert Varint(v) + rest == [v % 128 + 128] + (Varint(v / 128) + rest);
      assert (v % 128 + 128) % 128 == v % 128;
      ReadIdStep(acc, i, v % 128 + 128, Varint(v / 128) + rest);
      assert 7 * (i + 1) == 7 * i + 7;
      IdReads(acc + v % 128 * p, i + 1, v / 128, rest);
    }
  }

  lemma IdRoundTrip(id: nat, rest: Bytes)
    requires id < U32
    ensures ReadId(0, 0, Varint(id) + rest) == Some((id, rest))
  {
    assert Pow2(0) == 1;
    IdReads(0, 0, id, rest);
  }

  /** The kinds a client sends: a notify is what has the id 0. */
  predicate Sent(id: nat, kind: nat) {
    id < U32 && (kind == REQUEST || (kind == NOTIFY && id == NOTIFY_PUSH_REQ_ID))
  }

  /** The head of a message read back up to its route. */
  lemma HeadDecodes(id: nat, kind: nat, bit: Byte, rest: Bytes)
    requires Sent(id, kind) && bit < 2
    ensures var ids := if HasId(kind) then Varint(id) else [];
            var b := [kind * 2 + bit] + ids + rest;
            Decode(b) == match ReadRoute(bit == 1, |b| - |rest|, rest)
              case Short => Refused
              case Outside => Wild
              case Found(r, body) => if id == INVALID_REQ_ID then Aborted else Got(Raw(id, kind, bit == 1, r, body))
    ensures |if HasId(kind) then Varint(id) else []| <= 5
  {
    hide ReadRoute, ReadId;
    var ids := if HasId(kind) then Varint(id) else [];
    var b := [kind * 2 + bit] + ids + rest;
    assert b[1..] == ids + rest;
    if HasId(kind) {
      IdRoundTrip(id, rest);
      IdBytes(id);
    } else {
      assert [] + rest == rest;
    }
  }

  lemma IdBytes(id: nat)
    requires id < U32
    ensures |Varint(id)| <= 5
  {
    Pow2Step7(0);
    Pow2Step7(7);
    Pow2Step7(14);
    Pow2Step7(21);
    Pow2Step7(28);
    assert Pow2(35) == 0x8_0000_0000;
    VarintLength(id, 5);
  }

  /** A route string comes back exactly when its length byte is not negative as a char. */
  lemma RouteRoundTripIff(id: nat, kind: nat, route: Bytes, body: Bytes)
    requires Sent(id, kind)
    ensures Decode(EncodeRoute(id, kind, route, body)) == Got(Raw(id, kind, false, Text(route), body))
        <==> |route| <= 127 && id != INVALID_REQ_ID
  {
    hide Decode, HasId;
    var rest := RouteBytes(route) + body;
    var ids := if HasId(kind) then Varint(id) else [];
    assert EncodeRoute(id, kind, route, body) == [kind * 2 + 0] + ids + rest;
    HeadDecodes(id, kind, 0, rest);
    var n := |route| % 0x1_0000;
    assert rest[0] == n % 0x100 && rest[1..] == route[..n] + body;
    ghost var read := ReadRoute(false, |EncodeRoute(id, kind, route, body)| - |rest|, rest);
    assert read.Found? ==> read.route.Text? && |read.route.text| < 128;
    if |route| < 128 {
      assert route[..n] == route;
      assert rest[1..1 + n] == route && rest[1 + n..] == body;
    }
  }

  /** A notify with a route of 128 bytes and no body is one that does not. */
  lemma LongRouteFails()
    ensures var route: Bytes := seq(128, _ => 97);
            Decode(EncodeRoute(NOTIFY_PUSH_REQ_ID, NOTIFY, route, []))
            != Got(Raw(NOTIFY_PUSH_REQ_ID, NOTIFY, false, Text(route), []))
  {
    RouteRoundTripIff(NOTIFY_PUSH_REQ_ID, NOTIFY, seq(128, _ => 97), []);
  }

  /** A route code comes back exactly when it fits two bytes. */
  lemma CodeRoundTripIff(id: nat, kind: nat, code: int, body: Bytes)
    requires Sent(id, kind)
    ensures (0 <= code && Decode(EncodeCode(id, kind, code, body)) == Got(Raw(id, kind, true, Code(code), body)))
        <==> 0 <= code < 0x1_0000 && id != INVALID_REQ_ID
  {
    hide Decode, HasId;
    var rest := CodeBytes(code) + body;
    var ids := if HasId(kind) then Varint(id) else [];
    assert EncodeCode(id, kind, code, body) == [kind * 2 + 1] + ids + rest;
    HeadDecodes(id, kind, 1, rest);
    assert rest[2..] == body;
    assert code / 0x100 % 0x100 * 0x100 + code % 0x100 == code % 0x1_0000;
  }

  // ---- The bytes themselves

  /** What a client sends: the flag byte, the id of a request, the route or its code. */
  lemma SentBytes(id: nat, route: Bytes, code: nat, body: Bytes)
    requires id < U32 && |route| <= 255 && code < 0x1_0000
    ensures EncodeRoute(id, 0, route, body) == [0] + Varint(id) + [|route|] + route + body
    ensures EncodeRoute(id, 1, route, body) == [2, |route|] + route + body
    ensures EncodeCode(id, 0, code, body) == [1] + Varint(id) + [code / 0x100, code % 0x100] + body
    ensures EncodeCode(id, 1, code, body) == [3, code / 0x100, code % 0x100] + body
  {
    assert route[..|route|] == route;
    assert [0] + Varint(id) + ([|route|] + route) == [0] + Varint(id) + [|route|] + route;
    assert [2] + [] + ([|route|] + route) == [2, |route|] + route;
    assert [3] + [] + [code / 0x100, code % 0x100] == [3, code / 0x100, code % 0x100];
  }

  /** A response of a server: flag 4, or 5 when the flag's last bit is set, its id, the
      body; the reserved id fails an assertion. */
  lemma ResponseDecodes(id: nat, body: Bytes)
    requires id < U32
    ensures Decode([4] + Varint(id) + body)
         == if id == 0xFFFF_FFFF then Aborted else Got(Raw(id, 2, false, NoRoute, body))
    ensures Decode([5] + Varint(id) + body)
         == if id == 0xFFFF_FFFF then Aborted else Got(Raw(id, 2, true, Code(0), body))
  {
    hide ReadId, ReadRoute;
    IdRoundTrip(id, body);
    assert ([4] + Varint(id) + body)[1..] == Varint(id) + body;
    assert ([5] + Varint(id) + body)[1..] == Varint(id) + body;
  }

  /** A push: flag 6, the length of the route and the route, or flag 7 and two bytes of
      route code, then the body. */
  lemma PushDecodes(route: Bytes, code: nat, body: Bytes)
    requires |route| <= 127 && code < 0x1_0000
    ensures Decode([6, |route|] + route + body) == Got(Raw(0, 3, false, Text(route), body))
    ensures Decode([7, code / 0x100, code % 0x100] + body) == Got(Raw(0, 3, true, Code(code), body))
  {
    var b := [|route|] + route + body;
    assert ([6, |route|] + route + body)[1..] == b;
    assert b[1..1 + |route|] == route && b[1 + |route|..] == body;
    var c := [code / 0x100, code % 0x100] + body;
    assert ([7, code / 0x100, code % 0x100] + body)[1..] == c && c[2..] == body;
  }

  /** A push whose length byte is negative as a char: of such routes the longest one runs out of
      the input, the others are refused. */
  lemma LongPushFails(n: Byte, rest: Bytes)
    requires n >= 128
    ensures Decode([6, n] + rest) == if n == 255 then Wild else Refused
  {
    var b := [n] + rest;
    assert ([6, n] + rest)[1..] == b && b[0] == n;
  }

  /** No other flag byte is a message. */
  lemma OtherFlagsRefused(b: Bytes)
    ensures b == [] || b[0] >= 8 ==> Decode(b) == Refused
    ensures Decode(b).Got? ==> b[0] < 8 && Decode(b).raw.kind == b[0] / 2 && Decode(b).raw.id != 0xFFFF_FFFF
  {
    hide ReadId, ReadRoute;
  }

  // ---- A whole conversation

  /** PC_PKG_DATA */
  const DATA := 4

  datatype Message = Message(id: nat, route: Route, body: Bytes)

  function KindOf(m: Message): nat {
    if m.id == NOTIFY_PUSH_REQ_ID then NOTIFY else REQUEST
  }

  /** pc_default_msg_encode once the body is encoded and the route code looked up. */
  function Encode(m: Message): Bytes {
    match m.route
    case Code(c) => EncodeCode(m.id, KindOf(m), c, m.body)
    case Text(t) => EncodeRoute(m.id, KindOf(m), t, m.body)
    case NoRoute => EncodeRoute(m.id, KindOf(m), [], m.body)
  }

  /** What the code can carry: a 32-bit id that is not the reserved one, a route its
      length byte or its two bytes can hold, and a package body within 24 bits. */
  predicate Carried(m: Message) {
    && m.id < INVALID_REQ_ID && |Encode(m)| < MAX_BODY_BYTES
    && match m.route
       case Code(c) => c < 0x1_0000
       case Text(t) => |t| <= 127
       case NoRoute => false
  }

  function AsRaw(m: Message): Raw {
    Raw(m.id, KindOf(m), m.route.Code?, m.route, m.body)
  }

  lemma CarriedDecodes(m: Message)
    requires Carried(m)
    ensures Decode(Encode(m)) == Got(AsRaw(m))
  {
    match m.route
    case Code(c) => CodeRoundTripIff(m.id, KindOf(m), c, m.body);
    case Text(t) => RouteRoundTripIff(m.id, KindOf(m), t, m.body);
  }

  function Wrapped(ms: seq<Message>): seq<Package> {
    seq(|ms|, i requires 0 <= i < |ms| => Package(DATA, Encode(ms[i])))
  }

  /** Requests and notifies encoded, wrapped, sent as one stream and fed to the parser in
      any pieces: the handler gets as many packages, and the i-th decodes to the i-th
      message; the parser ends at the start of a head. */
  lemma ConversationArrives(ms: seq<Message>, chunks: seq<Bytes>)
    requires forall m <- ms :: Carried(m)
    requires Stream(Wrapped(ms)).Some? ==> Joined(chunks) == Stream(Wrapped(ms)).value
    ensures Stream(Wrapped(ms)).Some?
    ensures var fed := FeedMany(Fed([], []), chunks);
            && fed.pending == [] && |fed.handled| == |ms|
            && forall i :: 0 <= i < |ms| ==>
               fed.handled[i].kind == 4 && Decode(fed.handled[i].body) == Got(AsRaw(ms[i]))
  {
    hide Encode, Decode, AsRaw;
    StreamFits(Wrapped(ms));
    forall p | p in Wrapped(ms)
      ensures |p.body| < MAX_BODY_BYTES
    {
      var i :| 0 <= i < |ms| && p == Wrapped(ms)[i];
      assert Carried(ms[i]);
    }
    AnyChunks(Wrapped(ms), chunks);
    forall i | 0 <= i < |ms|
      ensures Decode(Wrapped(ms)[i].body) == Got(AsRaw(ms[i]))
    {
      CarriedDecodes(ms[i]);
    }
  }
}
