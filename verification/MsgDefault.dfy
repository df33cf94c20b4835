/** A whole message through all layers: JSON text in, bytes on the wire, JSON text out. */
module MsgDefault {
  import opened Basics
  import opened JsonTree
  import opened Words
  import JsonPrinter
  import JsonRoundTrip
  import JsonText
  import Header = MsgHeader
  import PbDecodeSpec
  import PbEncodeSpec
  import PbRoundTrip
  import PbSize

  type Bytes = seq<Byte>

  /** The schemas and dictionaries a transport holds; any may be missing. */
  datatype Setup = Setup(protos: Option<Json>, routeToCode: Option<Json>, codeToRoute: Json)

  /** What the C library does with floating-point numbers. */
  datatype Platform = Platform(fpu: PbEncodeSpec.Fpu, dt: JsonText.DoubleText)

  datatype Encoded = Encoded(bytes: Bytes) | Refused | Undefined

  /** pc_msg_t: no route for a response, no text for an empty body. */
  datatype Received = Received(id: nat, route: Option<string>, text: Option<string>) | Invalid | Stuck

  function Unformatted(p: Platform, j: Json): string {
    JsonText.ValueText(j, 0, false, p.dt)
  }

  function Schema(s: Setup, route: string): Option<Json> {
    match s.protos
    case None => None
    case Some(protos) => GetItem(protos, route)
  }

  // ---- Encoding

  /** pc_body_json_encode, or pc_body_pb_encode into twice the room of the JSON text. */
  function EncodeBody(p: Platform, s: Setup, route: string, j: Json): Encoded {
    match Schema(s, route)
    case None => Encoded(ToBytes(Unformatted(p, j)))
    case Some(def) =>
      match PbEncodeSpec.EncodeMsg(p.fpu, s.protos.value, def, j)
      case Done(b) => if |b| <= 2 * |Unformatted(p, j)| then Encoded(b) else Refused
      case Refused => Refused
      case Undefined => Undefined
  }

  /** The route code the dictionary gives, if it is one the encoder uses. */
  function RouteCode(s: Setup, route: string): Option<int> {
    match s.routeToCode
    case None => None
    case Some(d) =>
      match GetItem(d, route)
      case Some(Number(c, _)) => if c > 0 then Some(c) else None
      case _ => None
  }

  /** pc_default_msg_encode. */
  function Encode(p: Platform, s: Setup, id: nat, route: string, msg: string): Encoded {
    match JsonText.ParseWithOpts(msg, true)
    case Fail => Refused
    case Wild => Undefined
    case Done(j, _) =>
      var kind := if id == Header.NOTIFY_PUSH_REQ_ID then Header.NOTIFY else Header.REQUEST;
      match EncodeBody(p, s, route, j)
      case Encoded(body) => (match RouteCode(s, route)
                             case Some(c) => Encoded(Header.EncodeCode(id, kind, c, body))
                             case None => Encoded(Header.EncodeRoute(id, kind, ToBytes(route), body)))
      case other => other
  }

  // ---- Decoding

  /** The bytes as characters, up to the end. */
  function Chars(b: Bytes): string {
    seq(|b|, i requires 0 <= i < |b| => b[i] as char)
  }

  datatype Body = Tree(json: Json) | NoTree | Outside

  /** pc_body_json_decode: the value has to end where the body does; `behind` is what the
      buffer holds after it. */
  function DecodeJson(b: Bytes, behind: string): Body {
    match JsonText.ParseWithOpts(Chars(b) + behind, false)
    case Done(j, rest) => if |rest| == |behind| then Tree(j) else NoTree
    case Fail => NoTree
    case Wild => Outside
  }

  /** pc_body_pb_decode. */
  function DecodePb(p: Platform, protos: Json, def: Json, b: Bytes, behind: Bytes): Body {
    match PbDecodeSpec.DecodeMsg(p.fpu, protos, def, PbDecodeSpec.In(b + behind, |b|), Object([]))
    case Got(j, _) => Tree(j)
    case Bad => NoTree
    case Wild => Outside
  }

  /** pc__resolve_dictionary; None where its assertion fails. */
  function Resolve(s: Setup, code: nat): Option<string> {
    match GetItem(s.codeToRoute, Digits(code))
    case Some(String(t)) => Some(t)
    case _ => None
  }

  /** pc_default_msg_decode. */
  function Decode(p: Platform, s: Setup, b: Bytes, behind: Bytes): Received {
    match Header.Decode(b)
    case Refused => Invalid
    case Aborted => Stuck
    case Wild => Stuck
    case Got(raw) =>
      var route := if !Header.HasRoute(raw.kind) then None
                   else if raw.route.Code? then Resolve(s, raw.route.code)
                   else if raw.route.Text? then Some(FromBytes(raw.route.text)) else None;
      if Header.HasRoute(raw.kind) && route == None then Stuck
      else if raw.body == [] then Received(raw.id, route, None)
      else
        var def := if route == None then None else Schema(s, route.value);
        var body := if def == None then DecodeJson(raw.body, Chars(behind))
                    else DecodePb(p, s.protos.value, def.value, raw.body, behind);
        match body
        case Tree(j) => Received(raw.id, route, Some(Unformatted(p, j)))
        case NoTree => Invalid
        case Outside => Stuck
  }

  // ---- What arrives

  lemma CharsOfText(s: string)
    requires CText(s)
    ensures Chars(ToBytes(s)) == s && |ToBytes(s)| == |s|
  {
    assert forall i :: 0 <= i < |s| ==> Chars(ToBytes(s))[i] == s[i];
  }

  lemma {:induction false} TextTreeIsC(j: Json)
    requires JsonRoundTrip.TextTree(j)
    ensures JsonPrinter.CTree(j)
    decreases j
  {
    match j
    case Array(items) =>
      forall x | x in items
        ensures JsonPrinter.CTree(x)
      {
        TextTreeIsC(x);
      }
    case Object(ms) =>
      forall m | m in ms
        ensures JsonPrinter.CMember(m)
      {
        assert JsonRoundTrip.TextMember(m);
        TextTreeIsC(m.value);
      }
    case _ =>
  }

  /** A printed object is read from a body, formatted or not. */
  lemma PrintReturns(p: Platform, j: Json, fmt: bool, behind: string)
    requires j.Object? && JsonRoundTrip.TextTree(j) && JsonPrinter.CDoubles(p.dt)
    ensures var text := JsonText.ValueText(j, 0, fmt, p.dt);
            DecodeJson(ToBytes(text), behind) == Tree(j) && text != "" && CText(text) && |ToBytes(text)| == |text|
  {
    hide JsonText.ParseValue, JsonText.ValueText;
    var text := JsonText.ValueText(j, 0, fmt, p.dt);
    TextTreeIsC(j);
    JsonPrinter.ValueClean(j, 0, fmt, p.dt);
    CharsOfText(text);
    JsonRoundTrip.ValueStarts(j, 0, fmt, p.dt);
    JsonRoundTrip.AnyObjectParses(j.members, 0, fmt, p.dt, behind);
    JsonRoundTrip.SkipSolid(text + behind);
  }

  /** A JSON object in a body is read back, whatever lies behind it. */
  lemma JsonBodyReturns(p: Platform, j: Json, behind: string)
    requires j.Object? && JsonRoundTrip.TextTree(j) && JsonPrinter.CDoubles(p.dt)
    ensures DecodeJson(ToBytes(Unformatted(p, j)), behind) == Tree(j)
    ensures Unformatted(p, j) != "" && CText(Unformatted(p, j))
  {
    PrintReturns(p, j, false, behind);
  }

  /** The tree can travel: as JSON any object can, by a schema it has to match it. */
  ghost predicate Travels(p: Platform, s: Setup, route: string, j: Json) {
    && j.Object?
    && match Schema(s, route)
       case None => JsonRoundTrip.TextTree(j) && JsonPrinter.CDoubles(p.dt)
       case Some(def) => PbSize.Sendable(p.fpu, s.protos.value, def, j)
  }

  /** The encoder finds the room it needs: twice the JSON text for a body encoded by a
      schema. */
  ghost predicate BodyFits(p: Platform, s: Setup, route: string, j: Json) {
    match Schema(s, route)
    case None => true
    case Some(def) => PbSize.Fits(p.fpu, s.protos.value, def, j, p.dt)
  }

  /** The route can travel: short enough, or by a code both dictionaries agree on. */
  ghost predicate RouteTravels(s: Setup, route: string) {
    && CText(route)
    && match RouteCode(s, route)
       case None => |route| <= 127
       case Some(c) => c < 0x1_0000 && Resolve(s, c) == Some(route)
  }

  /** A body is encoded exactly when it fits, and then it is read back. */
  lemma BodyReturns(p: Platform, s: Setup, route: string, j: Json, behind: Bytes)
    requires Travels(p, s, route, j)
    ensures EncodeBody(p, s, route, j).Encoded? <==> BodyFits(p, s, route, j)
    ensures !BodyFits(p, s, route, j) ==> EncodeBody(p, s, route, j) == Refused
    ensures BodyFits(p, s, route, j) ==>
              var b := EncodeBody(p, s, route, j).bytes;
              Tree(j) == match Schema(s, route)
                         case None => DecodeJson(b, Chars(behind))
                         case Some(def) => DecodePb(p, s.protos.value, def, b, behind)
  {
    hide PbRoundTrip.WellTyped, PbEncodeSpec.EncodeMsg, PbDecodeSpec.DecodeMsg, DecodeJson;
    match Schema(s, route)
    case None => JsonBodyReturns(p, j, Chars(behind));
    case Some(def) => PbRoundTrip.RoundTrip(p.fpu, s.protos.value, def, j, behind);
  }

  /** What arrives of a message: nothing is sent when the body does not fit; else the same
      id and route with the unformatted text of the same tree; only a body of no bytes,
      which a schema can produce, arrives without its text. */
  ghost predicate Arrives(p: Platform, s: Setup, id: nat, route: string, msg: string, j: Json, behind: Bytes) {
    var e := Encode(p, s, id, route, msg);
    && e.Encoded? && EncodeBody(p, s, route, j).Encoded?
    && Decode(p, s, e.bytes, behind)
       == Received(id, Some(route), if EncodeBody(p, s, route, j).bytes == [] then None else Some(Unformatted(p, j)))
  }

  /** A message text that parses to an object the setup can carry arrives exactly when its
      body fits; else it is refused before it is sent. */
  lemma MessageArrivesIff(p: Platform, s: Setup, id: nat, route: string, msg: string, j: Json, behind: Bytes)
    requires JsonText.ParseWithOpts(msg, true) == JsonText.Done(j, "")
    requires id < Header.INVALID_REQ_ID && Travels(p, s, route, j) && RouteTravels(s, route)
    ensures Arrives(p, s, id, route, msg, j, behind) <==> BodyFits(p, s, route, j)
    ensures !BodyFits(p, s, route, j) ==> Encode(p, s, id, route, msg) == Refused
  {
    hide JsonText.ParseWithOpts, EncodeBody, DecodeJson, DecodePb, Unformatted, Schema, Travels, BodyFits;
    hide Header.Decode, Header.EncodeRoute, Header.EncodeCode, FromBytes, ToBytes;
    BodyReturns(p, s, route, j, behind);
    if BodyFits(p, s, route, j) {
      var body := EncodeBody(p, s, route, j).bytes;
      var kind := if id == Header.NOTIFY_PUSH_REQ_ID then Header.NOTIFY else Header.REQUEST;
      match RouteCode(s, route)
      case None =>
        BytesOfText(route);
        Header.RouteRoundTripIff(id, kind, ToBytes(route), body);
        TextRoundTrip(route);
      case Some(c) =>
        Header.CodeRoundTripIff(id, kind, c, body);
    }
  }

  lemma BytesOfText(s: string)
    ensures |ToBytes(s)| == |s|
  {
  }

  /** Which bytes go out: flag 1 or 3 and two bytes of code where the dictionary has a number
      above 0 for the route, else flag 0 or 2 and the route behind its length; the id only in
      requests; the body last. */
  lemma BytesSent(p: Platform, s: Setup, id: nat, route: string, msg: string, j: Json, rest: string, body: Bytes)
    requires JsonText.ParseWithOpts(msg, true) == JsonText.Done(j, rest) && EncodeBody(p, s, route, j) == Encoded(body)
    requires id < U32 && |route| <= 255
    ensures var code := if s.routeToCode.None? then None else GetItem(s.routeToCode.value, route);
            var ids := if id == 0 then [] else Varint(id);
            if code.Some? && code.value.Number? && code.value.valueint > 0 then
              var c := code.value.valueint;
              c < 0x1_0000 ==>
                Encode(p, s, id, route, msg)
                == Encoded([if id == 0 then 3 else 1] + ids + [c / 0x100, c % 0x100] + body)
            else
              Encode(p, s, id, route, msg)
              == Encoded([if id == 0 then 2 else 0] + ids + [|route|] + ToBytes(route) + body)
  {
    hide JsonText.ParseWithOpts, EncodeBody, Header.EncodeRoute, Header.EncodeCode, ToBytes, GetItem, Varint;
    BytesOfText(route);
    var c := if RouteCode(s, route).Some? && RouteCode(s, route).value < 0x1_0000 then RouteCode(s, route).value else 0;
    Header.SentBytes(id, ToBytes(route), c, body);
    assert [2] + [] + [|route|] == [2, |route|];
    assert [3] + [] + [c / 0x100, c % 0x100] == [3, c / 0x100, c % 0x100];
  }

  /** The schemas of a setup are compact and none repeats doubles: a check of the schemas
      alone. */
  ghost predicate Roomy(head: PbSize.Head, s: Setup, schemas: set<Json>) {
    s.protos.Some? ==>
      && PbSize.CompactSchemas(head, s.protos.value, schemas) && !PbSize.HasRepeatedDouble(schemas)
      && forall route :: Schema(s, route).Some? ==> Schema(s, route).value in schemas
  }

  /** With such schemas every message that can travel arrives. */
  lemma MessageArrives(head: PbSize.Head, p: Platform, s: Setup, schemas: set<Json>, id: nat, route: string,
                       msg: string, j: Json, behind: Bytes)
    requires JsonText.ParseWithOpts(msg, true) == JsonText.Done(j, "")
    requires id < Header.INVALID_REQ_ID && Travels(p, s, route, j) && RouteTravels(s, route)
    requires Roomy(head, s, schemas) && PbSize.Writes(p.dt)
    ensures Arrives(p, s, id, route, msg, j, behind)
  {
    hide Arrives, JsonText.ParseWithOpts, RouteTravels, PbSize.Fits, PbSize.Sendable;
    MessageArrivesIff(p, s, id, route, msg, j, behind);
    if Schema(s, route).Some? {
      PbSize.SendableFits(head, p.fpu, s.protos.value, schemas, Schema(s, route).value, j, p.dt);
    }
  }

  // ---- What a server sends

  /** A body a server may send: the print of an object, formatted or not, or by the schema
      of the route its encoding. */
  ghost predicate ServerBody(p: Platform, s: Setup, route: Option<string>, j: Json, body: Bytes) {
    && j.Object?
    && match if route == None then None else Schema(s, route.value)
       case None =>
         && JsonRoundTrip.TextTree(j) && JsonPrinter.CDoubles(p.dt)
         && exists fmt: bool :: body == ToBytes(JsonText.ValueText(j, 0, fmt, p.dt))
       case Some(def) =>
         && PbSize.Sendable(p.fpu, s.protos.value, def, j)
         && body == PbEncodeSpec.EncodeMsg(p.fpu, s.protos.value, def, j).bytes
  }

  /** The text handed to the client for such a body; none for a body of no bytes. */
  function TextOf(p: Platform, j: Json, body: Bytes): Option<string> {
    if body == [] then None else Some(Unformatted(p, j))
  }

  /** A server's body is read back. */
  lemma ServerBodyReturns(p: Platform, s: Setup, route: Option<string>, j: Json, body: Bytes, behind: Bytes)
    requires ServerBody(p, s, route, j, body)
    ensures Tree(j) == match if route == None then None else Schema(s, route.value)
                       case None => DecodeJson(body, Chars(behind))
                       case Some(def) => DecodePb(p, s.protos.value, def, body, behind)
  {
    hide PbRoundTrip.WellTyped, PbEncodeSpec.EncodeMsg, PbDecodeSpec.DecodeMsg, DecodeJson, JsonText.ValueText;
    match if route == None then None else Schema(s, route.value)
    case None =>
      var fmt: bool :| body == ToBytes(JsonText.ValueText(j, 0, fmt, p.dt));
      PrintReturns(p, j, fmt, Chars(behind));
    case Some(def) =>
      PbRoundTrip.RoundTrip(p.fpu, s.protos.value, def, j, behind);
  }

  /** A response arrives with its id, without a route, and with the text of its body; with
      the reserved id it runs into an assertion. */
  lemma ResponseArrives(p: Platform, s: Setup, id: nat, flag: Byte, j: Json, body: Bytes, behind: Bytes)
    requires id < U32 && (flag == 4 || flag == 5) && ServerBody(p, s, None, j, body)
    ensures Decode(p, s, [flag] + Varint(id) + body, behind)
         == if id == 0xFFFF_FFFF then Stuck else Received(id, None, TextOf(p, j, body))
  {
    hide Header.Decode, ServerBody, DecodeJson, DecodePb, Schema, Unformatted;
    Header.ResponseDecodes(id, body);
    ServerBodyReturns(p, s, None, j, body, behind);
  }

  /** A push arrives with its route, written out or by its code, and the text of its body. */
  lemma PushArrives(p: Platform, s: Setup, route: string, code: nat, j: Json, body: Bytes, behind: Bytes)
    requires CText(route) && |route| <= 127 && code < 0x1_0000 && ServerBody(p, s, Some(route), j, body)
    ensures Decode(p, s, [6, |route|] + ToBytes(route) + body, behind) == Received(0, Some(route), TextOf(p, j, body))
    ensures GetItem(s.codeToRoute, Digits(code)) == Some(String(route)) ==>
            Decode(p, s, [7, code / 0x100, code % 0x100] + body, behind) == Received(0, Some(route), TextOf(p, j, body))
  {
    hide Header.Decode, ServerBody, DecodeJson, DecodePb, Schema, Unformatted, FromBytes, ToBytes, GetItem;
    BytesOfText(route);
    Header.PushDecodes(ToBytes(route), code, body);
    TextRoundTrip(route);
    ServerBodyReturns(p, s, Some(route), j, body, behind);
  }

  // ---- A message that does not fit

  /** A schema with one repeated field of doubles. */
  function Doubles(): Json {
    Object([Member("__tags", Object([Member("1", String("a"))])), Member("a", DoublesProto())])
  }

  function DoublesProto(): Json {
    Object([Member("option", String("repeated")), Member("type", String("double")), Member("tag", Number(1, 1.0))])
  }

  lemma DoublesFound()
    ensures GetItem(Doubles(), "a") == Some(DoublesProto())
    ensures GetItem(Doubles(), "__tags") == Some(Object([Member("1", String("a"))]))
    ensures ItemText(Object([Member("1", String("a"))]), Digits(1)) == Some("a")
  {
    assert Digits(1) == "1";
  }

  lemma DoublesFields()
    ensures ItemText(DoublesProto(), "option") == Some("repeated") && ItemText(DoublesProto(), "type") == Some("double")
    ensures GetItem(DoublesProto(), "tag") == Some(Number(1, 1.0))
  {
  }

  lemma DoublesRepeat()
    ensures PbSize.RepeatsDouble(Doubles(), "a") && GetItem(Doubles(), "a") == Some(DoublesProto())
    ensures PbSize.Compact(2, "a", DoublesProto())
  {
    hide Doubles, DoublesProto, Find, Digits;
    DoublesFound();
    DoublesFields();
    ATextLength();
  }

  lemma ATextLength()
    ensures |JsonText.StringText("a")| == 3
  {
    assert JsonText.Escaped("a") == JsonText.EscapeChar('a') + JsonText.Escaped("");
  }

  /** Five ones as doubles take 42 bytes, and their text has 17 characters. */
  lemma DoublesFail(p: Platform, route: string)
    requires PbSize.KeepsOne(p.fpu)
    ensures var s := Setup(Some(Object([Member(route, Doubles())])), None, Object([]));
            var one := Number(1, 1.0);
            EncodeBody(p, s, route, Object([Member("a", Array([one, one, one, one, one]))])) == Refused
  {
    hide PbRoundTrip.WellTyped, PbEncodeSpec.EncodeMsg, JsonText.ValueText, Doubles;
    var gprotos := Object([Member(route, Doubles())]);
    DoublesRepeat();
    ATextLength();
    FiveOnes();
    PbSize.RepeatedDoubleOverflows(2, p.fpu, gprotos, Doubles(), "a", p.dt);
  }

  lemma FiveOnes()
    ensures var one := Number(1, 1.0); PbSize.Ones(5) == [one, one, one, one, one]
  {
    var one := Number(1, 1.0);
    assert PbSize.Ones(2) == [one, one] && PbSize.Ones(3) == [one, one, one];
    assert PbSize.Ones(4) == [one, one, one, one];
  }
}
