/** Any bytes at all: exactly when the decoder stays within what C defines. */
module PbSafety {
  import opened Basics
  import opened JsonTree
  import opened PbDecodeSpec
  import opened PbEncodeSpec
  import opened PbRoundTrip
  import opened Words

  // ---- Which schemas

  /** The schemas reachable from a message: what is searched has names, every tag that
      can be looked up leads to a field with a type and an option, and message types
      stay inside the set. */
  ghost predicate SchemaOk(gprotos: Json, schemas: set<Json>, protos: Json) {
    && !Unnamed(protos)
    && (GetItem(protos, "__tags").Some? ==> TagsLead(gprotos, schemas, protos, GetItem(protos, "__tags").value))
  }

  ghost predicate TagsLead(gprotos: Json, schemas: set<Json>, protos: Json, tags: Json) {
    && !Unnamed(tags)
    && forall number: nat :: TagLeadsToField(gprotos, schemas, protos, GetItem(tags, Digits(number)))
  }

  ghost predicate TagLeadsToField(gprotos: Json, schemas: set<Json>, protos: Json, tag: Option<Json>) {
    tag.Some? ==>
      && ValueString(tag.value).Some?
      && (GetItem(protos, ValueString(tag.value).value).Some? ==>
            FieldUsable(gprotos, schemas, protos, GetItem(protos, ValueString(tag.value).value).value))
  }

  ghost predicate FieldUsable(gprotos: Json, schemas: set<Json>, protos: Json, proto: Json) {
    && ItemText(proto, "type").Some?
    && ItemText(proto, "option").Some?
    && var t := ItemText(proto, "type").value;
    TypeOf(t) == Message ==>
      && TypesNamed(gprotos, protos)
      && (SubSchema(gprotos, protos, t).Some? ==> SubSchema(gprotos, protos, t).value in schemas)
  }

  /** The tables in which a message type is looked up. */
  ghost predicate TypesNamed(gprotos: Json, protos: Json) {
    && !Unnamed(gprotos) && !Unnamed(protos)
    && (GetItem(protos, "__messages").Some? ==> !Unnamed(GetItem(protos, "__messages").value))
  }

  ghost predicate Closed(gprotos: Json, schemas: set<Json>) {
    forall protos <- schemas :: SchemaOk(gprotos, schemas, protos)
  }

  /** Members of repeated fields are lists; true of the empty object a caller starts with. */
  ghost predicate ListsOk(protos: Json, result: Json) {
    result.Object? && forall m <- result.members :: MemberOk(protos, m)
  }

  ghost predicate MemberOk(protos: Json, m: Member) {
    GetItem(protos, m.name).Some? && ItemText(GetItem(protos, m.name).value, "option") == Some("repeated") ==>
    m.value.Array?
  }

  // ---- Which bytes

  /** A value of this type is read at this place. */
  datatype Met = Met(t: FieldType, at: In)

  /** The values that are not messages in some bytes, in order, and where the bytes end;
      None when they are cut short or do not fit the schema. */
  datatype Walk = Walk(met: seq<Met>, end: Option<In>)

  /** Where a value that is not a message ends. */
  function ScalarEnd(t: FieldType, s: In): (end: Option<In>)
    requires s.Ok() && t != Message
    ensures end.Some? ==> end.value.Follows(s)
  {
    match t
    case UInt32 | Int32 | SInt32 => (var v := ReadVarint(s, 0, 0); if v.ok then Some(v.s) else None)
    case Float => if s.left < 4 then None else Some(s.Skip(4))
    case Double => if s.left < 8 then None else Some(s.Skip(8))
    case Text =>
      var len := ReadVarint32(s);
      if !len.ok || len.s.left < len.value then None else Some(len.s.Skip(len.value))
  }

  function WalkMsg(gprotos: Json, protos: Json, s: In): (w: Walk)
    requires s.Ok()
    ensures w.end.Some? ==> w.end.value.Follows(s)
    decreases s.left, 4
  {
    if s.left == 0 then Walk([], Some(s))
    else
      var tag := ReadVarint32(s);
      if !tag.ok then Walk([], if tag.s.left == 0 then Some(tag.s) else None)
      else if tag.value == 0 then Walk([], Some(tag.s))
      else Joined(WalkField(gprotos, protos, tag.value / 8, tag.s), gprotos, protos, tag.s)
  }

  /** A field and the fields behind it. */
  function Joined(f: Walk, gprotos: Json, protos: Json, s: In): (w: Walk)
    requires s.Ok() && (f.end.Some? ==> f.end.value.Follows(s))
    ensures w.end.Some? ==> w.end.value.Follows(s)
    decreases s.left, 5
  {
    match f.end
    case None => f
    case Some(after) => var r := WalkMsg(gprotos, protos, after); Walk(f.met + r.met, r.end)
  }

  /** The field a tag number stands for. */
  function FieldOf(protos: Json, number: nat): Option<Json> {
    match GetItem(protos, "__tags")
    case None => None
    case Some(tags) =>
      match ItemText(tags, Digits(number))
      case None => None
      case Some(name) => GetItem(protos, name)
  }

  function WalkField(gprotos: Json, protos: Json, number: nat, s: In): (w: Walk)
    requires s.Ok()
    ensures w.end.Some? ==> w.end.value.Follows(s)
    decreases s.left, 3
  {
    match FieldOf(protos, number)
    case None => Walk([], None)
    case Some(proto) =>
      var option := ItemText(proto, "option");
      if option == Some("optional") || option == Some("required") then WalkProto(gprotos, proto, protos, s)
      else if option == Some("repeated") then WalkElements(gprotos, proto, protos, s)
      else Walk([], Some(s))
  }

  function WalkElements(gprotos: Json, proto: Json, protos: Json, s: In): (w: Walk)
    requires s.Ok()
    ensures w.end.Some? ==> w.end.value.Follows(s)
    decreases s.left, 2
  {
    match ItemText(proto, "type")
    case Some(t) =>
      if Packed(t) then
        var size := ReadVarint32(s);
        if size.ok then WalkItems(TypeOf(t), size.value, size.s) else Walk([], None)
      else WalkProto(gprotos, proto, protos, s)
    case None => Walk([], None)
  }

  function WalkItems(t: FieldType, n: nat, s: In): (w: Walk)
    requires s.Ok() && t != Message
    ensures w.end.Some? ==> w.end.value.Follows(s)
    decreases n
  {
    if n == 0 then Walk([], Some(s))
    else
      match ScalarEnd(t, s)
      case None => Walk([Met(t, s)], None)
      case Some(after) => var r := WalkItems(t, n - 1, after); Walk([Met(t, s)] + r.met, r.end)
  }

  function WalkProto(gprotos: Json, proto: Json, protos: Json, s: In): (w: Walk)
    requires s.Ok()
    ensures w.end.Some? ==> w.end.value.Follows(s)
    decreases s.left, 1
  {
    match ItemText(proto, "type")
    case Some(t) =>
      if TypeOf(t) != Message then Walk([Met(TypeOf(t), s)], ScalarEnd(TypeOf(t), s))
      else if GetItem(protos, "__messages").None? then Walk([], Some(s))
      else
        (match SubSchema(gprotos, protos, t)
         case None => Walk([], None)
         case Some(sub) => WalkSubmessage(gprotos, sub, s))
    case None => Walk([], None)
  }

  function WalkSubmessage(gprotos: Json, protos: Json, s: In): (w: Walk)
    requires s.Ok()
    ensures w.end.Some? ==> w.end.value.Follows(s)
    decreases s.left, 0
  {
    var size := ReadVarint32(s);
    if !size.ok || size.s.left < size.value then Walk([], None)
    else
      var w := WalkMsg(gprotos, protos, In(size.s.rest, size.value));
      match w.end
      case None => w
      case Some(end) => Walk(w.met, Some(In(end.rest, size.s.left - size.value)))
  }

  /** Reading the value does what C defines: a number that is there fits an int, and a
      string does not announce 2^32-1 bytes. */
  predicate Harmless(fpu: Fpu, m: Met)
    requires m.at.Ok() && m.t != Message
  {
    var s := m.at;
    match m.t
    case UInt32 => (var v := ReadVarint(s, 0, 0); v.ok ==> v.value < INT_LIMIT)
    case Int32 | SInt32 => (var v := ReadVarint(s, 0, 0); v.ok ==> -INT_LIMIT <= UnZigZag(v.value) < INT_LIMIT)
    case Float => s.left >= 4 ==> Representable(fpu.ofSingle(s.rest[..4]))
    case Double => s.left >= 8 ==> Representable(fpu.ofDouble(s.rest[..8]))
    case Text => (var len := ReadVarint32(s); len.ok ==> len.value != WRAPPING_LENGTH)
  }

  predicate Representable(d: Option<real>) {
    d.Some? && FitsInt(d.value)
  }

  ghost predicate AllHarmless(fpu: Fpu, met: seq<Met>) {
    forall m <- met :: m.at.Ok() && m.t != Message && Harmless(fpu, m)
  }

  // ---- The decoder follows the walk

  /** Undefined exactly when something harmful was met; else both end alike. */
  ghost predicate Agrees(fpu: Fpu, d: Dec, w: Walk) {
    && (d == Wild <==> !AllHarmless(fpu, w.met))
    && (d.Got? ==> w.end == Some(d.s))
    && (d == Bad ==> w.end == None)
  }

  lemma HarmlessParts(fpu: Fpu, a: seq<Met>, b: seq<Met>)
    ensures AllHarmless(fpu, a + b) <==> AllHarmless(fpu, a) && AllHarmless(fpu, b)
    ensures AllHarmless(fpu, [])
  {
    assert forall m :: m in a + b <==> m in a || m in b;
  }

  lemma HarmlessOne(fpu: Fpu, m: Met)
    ensures AllHarmless(fpu, [m]) <==> m.at.Ok() && m.t != Message && Harmless(fpu, m)
  {
    assert [m][0] == m;
  }

  lemma ScalarAgrees(fpu: Fpu, t: FieldType, key: Option<string>, s: In, result: Json)
    requires s.Ok() && t != Message && ((result.Object? && key.Some?) || result.Array?)
    ensures Agrees(fpu, DecodeScalar(fpu, t, key, s, result), Walk([Met(t, s)], ScalarEnd(t, s)))
  {
    hide ReadVarint, ReadVarint32, AllHarmless, CreateNumber;
    HarmlessOne(fpu, Met(t, s));
    match t
    case UInt32 => CreateNumberOfInt(ReadVarint(s, 0, 0).value);
    case Int32 | SInt32 => CreateNumberOfInt(UnZigZag(ReadVarint(s, 0, 0).value));
    case _ =>
  }

  /** What a successful pb_decode_proto does to its result: nothing, or one more
      item at the end; without a key the result is the decoded message. */
  ghost predicate Grows(result: Json, key: Option<string>, d: Dec) {
    && (d.Got? && result.Object? && key.Some? ==>
          d.json == result || exists v :: d.json == Object(result.members + [Member(key.value, v)]))
    && (d.Got? && result.Array? ==> d.json.Array?)
  }

  lemma ScalarGrows(fpu: Fpu, t: FieldType, key: Option<string>, s: In, result: Json)
    requires s.Ok() && t != Message
    ensures Grows(result, key, DecodeScalar(fpu, t, key, s, result))
  {
    hide ReadVarint, ReadVarint32;
  }

  /** On every byte string and for a closed set of schemas the decoder accepts or
      refuses exactly when all it meets is harmless, and it stops where the walk does. */
  lemma {:induction false} DecodeIsSafeIff(fpu: Fpu, gprotos: Json, schemas: set<Json>, protos: Json, s: In,
                                           result: Json)
    requires s.Ok() && Closed(gprotos, schemas) && protos in schemas && ListsOk(protos, result)
    ensures Agrees(fpu, DecodeMsg(fpu, gprotos, protos, s, result), WalkMsg(gprotos, protos, s))
    ensures var d := DecodeMsg(fpu, gprotos, protos, s, result);
            d.Got? ==> ListsOk(protos, d.json)
    decreases s.left, 5
  {
    hide ListsOk, SchemaOk, Closed, ReadVarint32, DecodeField, WalkField, Agrees;
    NothingAgrees(fpu, s, result);
    if s.left > 0 {
      var tag := ReadVarint32(s);
      NothingAgrees(fpu, tag.s, result);
      if tag.ok && tag.value != 0 {
        FieldIsSafeIff(fpu, gprotos, schemas, protos, tag.value / 8, tag.s, result);
        var d := DecodeField(fpu, gprotos, protos, tag.value / 8, tag.s, result);
        var w := WalkField(gprotos, protos, tag.value / 8, tag.s);
        if d.Got? {
          GotEnds(fpu, d, w);
          DecodeIsSafeIff(fpu, gprotos, schemas, protos, d.s, d.json);
          ThenAgrees(fpu, d, w, DecodeMsg(fpu, gprotos, protos, d.s, d.json), WalkMsg(gprotos, protos, d.s));
        } else {
          ThenAgrees(fpu, d, w, d, if w.end.Some? then WalkMsg(gprotos, protos, w.end.value) else w);
        }
      }
    }
  }

  lemma NothingAgrees(fpu: Fpu, s: In, result: Json)
    ensures Agrees(fpu, Got(result, s), Walk([], Some(s))) && Agrees(fpu, Bad, Walk([], None))
  {
  }

  lemma GotEnds(fpu: Fpu, d: Dec, w: Walk)
    requires Agrees(fpu, d, w) && d.Got?
    ensures w.end == Some(d.s)
  {
  }

  /** One decoding after another, when the first succeeds. */
  lemma ThenAgrees(fpu: Fpu, d: Dec, w: Walk, e: Dec, v: Walk)
    requires Agrees(fpu, d, w) && (d.Got? ==> Agrees(fpu, e, v))
    ensures Agrees(fpu, if d.Got? then e else d, if w.end.Some? then Walk(w.met + v.met, v.end) else w)
  {
    HarmlessParts(fpu, w.met, v.met);
  }

  lemma {:induction false} FieldIsSafeIff(fpu: Fpu, gprotos: Json, schemas: set<Json>, protos: Json, number: nat,
                                          s: In, result: Json)
    requires s.Ok() && Closed(gprotos, schemas) && protos in schemas && ListsOk(protos, result)
    ensures Agrees(fpu, DecodeField(fpu, gprotos, protos, number, s, result), WalkField(gprotos, protos, number, s))
    ensures var d := DecodeField(fpu, gprotos, protos, number, s, result);
            d.Got? ==> ListsOk(protos, d.json)
    decreases s.left, 4
  {
    hide ListsOk, DecodeArray, DecodeProto, WalkElements, WalkProto, Digits, Find, Agrees;
    assert SchemaOk(gprotos, schemas, protos);
    NothingAgrees(fpu, s, result);
    var tags := GetItem(protos, "__tags");
    if tags.Some? {
      var tag := GetItem(tags.value, Digits(number));
      assert TagLeadsToField(gprotos, schemas, protos, tag);
      if tag.Some? && GetItem(protos, ValueString(tag.value).value).Some? {
        var name := ValueString(tag.value).value;
        var proto := GetItem(protos, name).value;
        if ItemText(proto, "option").value == "repeated" {
          ArrayIsSafeIff(fpu, gprotos, schemas, protos, proto, name, s, result);
        } else {
          SingleIsSafeIff(fpu, gprotos, schemas, protos, proto, name, s, result);
        }
      }
    }
  }

  lemma {:induction false} SingleIsSafeIff(fpu: Fpu, gprotos: Json, schemas: set<Json>, protos: Json, proto: Json,
                                           name: string, s: In, result: Json)
    requires s.Ok() && Closed(gprotos, schemas) && ListsOk(protos, result)
    requires FieldUsable(gprotos, schemas, protos, proto)
    requires GetItem(protos, name) == Some(proto) && ItemText(proto, "option").value != "repeated"
    ensures Agrees(fpu, DecodeProto(fpu, gprotos, proto, protos, Some(name), s, result),
                   WalkProto(gprotos, proto, protos, s))
    ensures var d := DecodeProto(fpu, gprotos, proto, protos, Some(name), s, result);
            d.Got? ==> ListsOk(protos, d.json)
    decreases s.left, 2
  {
    hide Closed, DecodeProto, WalkProto, Agrees;
    ProtoIsSafeIff(fpu, gprotos, schemas, protos, proto, Some(name), s, result);
    var d := DecodeProto(fpu, gprotos, proto, protos, Some(name), s, result);
    if d.Got? && d.json != result {
      var m := d.json.members[|result.members|];
      assert MemberOk(protos, m);
    }
  }

  lemma {:induction false} ProtoIsSafeIff(fpu: Fpu, gprotos: Json, schemas: set<Json>, protos: Json, proto: Json,
                                          key: Option<string>, s: In, result: Json)
    requires s.Ok() && Closed(gprotos, schemas)
    requires FieldUsable(gprotos, schemas, protos, proto)
    requires result.Object? || result.Array?
    requires key.None? ==> result == Object([]) && TypeOf(ItemText(proto, "type").value) == Message
    ensures Agrees(fpu, DecodeProto(fpu, gprotos, proto, protos, key, s, result), WalkProto(gprotos, proto, protos, s))
    ensures Grows(result, key, DecodeProto(fpu, gprotos, proto, protos, key, s, result))
    decreases s.left, 1
  {
    hide Closed, DecodeScalar, DecodeSubmessage, WalkSubmessage, ScalarEnd, Agrees;
    NothingAgrees(fpu, s, result);
    var t := ItemText(proto, "type").value;
    if TypeOf(t) != Message {
      ScalarAgrees(fpu, TypeOf(t), key, s, result);
      ScalarGrows(fpu, TypeOf(t), key, s, result);
    } else if SubSchema(gprotos, protos, t).Some? {
      SubmessageIsSafeIff(fpu, gprotos, schemas, SubSchema(gprotos, protos, t).value, s);
      LandedAgrees(fpu, DecodeSubmessage(fpu, gprotos, SubSchema(gprotos, protos, t).value, s, Object([])),
                   WalkSubmessage(gprotos, SubSchema(gprotos, protos, t).value, s), result, key);
    }
  }

  /** A decoded message is appended under its key. */
  lemma LandedAgrees(fpu: Fpu, d: Dec, w: Walk, result: Json, key: Option<string>)
    requires Agrees(fpu, d, w) && (result.Array? || (result.Object? && key.Some?) || key.None?)
    ensures key.Some? ==> Agrees(fpu, if d.Got? then Attach(result, key, d.json, d.s) else d, w)
  {
  }

  lemma {:induction false} SubmessageIsSafeIff(fpu: Fpu, gprotos: Json, schemas: set<Json>, protos: Json, s: In)
    requires s.Ok() && Closed(gprotos, schemas) && protos in schemas
    ensures Agrees(fpu, DecodeSubmessage(fpu, gprotos, protos, s, Object([])), WalkSubmessage(gprotos, protos, s))
    decreases s.left, 0
  {
    hide Closed, DecodeMsg, WalkMsg, ReadVarint32, AllHarmless;
    HarmlessParts(fpu, [], []);
    var size := ReadVarint32(s);
    if size.ok && size.value <= size.s.left {
      DecodeIsSafeIff(fpu, gprotos, schemas, protos, In(size.s.rest, size.value), Object([]));
    }
  }

  lemma {:induction false} ArrayIsSafeIff(fpu: Fpu, gprotos: Json, schemas: set<Json>, protos: Json, proto: Json,
                                          name: string, s: In, result: Json)
    requires s.Ok() && Closed(gprotos, schemas) && ListsOk(protos, result)
    requires FieldUsable(gprotos, schemas, protos, proto)
    requires GetItem(protos, name) == Some(proto) && ItemText(proto, "option").value == "repeated"
    ensures Agrees(fpu, DecodeArray(fpu, gprotos, proto, protos, name, s, result),
                   WalkElements(gprotos, proto, protos, s))
    ensures var d := DecodeArray(fpu, gprotos, proto, protos, name, s, result);
            d.Got? ==> ListsOk(protos, d.json)
    decreases s.left, 3
  {
    hide Closed, DecodeElements, WalkElements, AllHarmless;
    var t := ItemText(proto, "type").value;
    var found := GetItem(result, name);
    var list := if found.Some? then found.value else Array([]);
    assert found.Some? ==> MemberOk(protos, Member(name, found.value));
    ElementsAreSafeIff(fpu, gprotos, schemas, protos, proto, name, s, list);
    var d := DecodeElements(fpu, gprotos, proto, protos, t, name, s, list);
    if d.Got? {
      if found.Some? {
        UpdateMembers(result.members, name, d.json);
      } else {
        assert MemberOk(protos, Member(name, d.json));
      }
    }
  }

  lemma {:induction false} UpdateMembers(ms: seq<Member>, key: string, j: Json)
    ensures forall m <- Update(ms, key, j) :: m in ms || m == Member(key, j)
  {
    if ms != [] && ms[0].name != key {
      UpdateMembers(ms[1..], key, j);
    }
  }

  lemma {:induction false} ElementsAreSafeIff(fpu: Fpu, gprotos: Json, schemas: set<Json>, protos: Json, proto: Json,
                                              name: string, s: In, list: Json)
    requires s.Ok() && Closed(gprotos, schemas) && list.Array?
    requires FieldUsable(gprotos, schemas, protos, proto)
    ensures var d := DecodeElements(fpu, gprotos, proto, protos, ItemText(proto, "type").value, name, s, list);
            Agrees(fpu, d, WalkElements(gprotos, proto, protos, s)) && (d.Got? ==> d.json.Array?)
    decreases s.left, 2
  {
    hide Closed, DecodeItems, DecodeProto, WalkItems, WalkProto, ReadVarint32, AllHarmless;
    HarmlessParts(fpu, [], []);
    var t := ItemText(proto, "type").value;
    if Packed(t) {
      var size := ReadVarint32(s);
      if size.ok {
        ItemsAreSafeIff(fpu, gprotos, proto, protos, name, size.value, size.s, list);
      }
    } else if TypeOf(t) == Text {
      ProtoIsSafeIff(fpu, gprotos, schemas, protos, proto, Some(name), s, list);
    } else {
      ProtoIsSafeIff(fpu, gprotos, schemas, protos, proto, None, s, Object([]));
    }
  }

  lemma {:induction false} ItemsAreSafeIff(fpu: Fpu, gprotos: Json, proto: Json, protos: Json, name: string, n: nat,
                                           s: In, list: Json)
    requires s.Ok() && list.Array? && ItemText(proto, "type").Some? && Packed(ItemText(proto, "type").value)
    ensures var d := DecodeItems(fpu, gprotos, proto, protos, name, n, s, list);
            && Agrees(fpu, d, WalkItems(TypeOf(ItemText(proto, "type").value), n, s))
            && (d.Got? ==> d.json.Array?)
    decreases n
  {
    hide DecodeScalar, ScalarEnd, AllHarmless;
    HarmlessParts(fpu, [], []);
    if n > 0 {
      var t := TypeOf(ItemText(proto, "type").value);
      ScalarAgrees(fpu, t, Some(name), s, list);
      ScalarGrows(fpu, t, Some(name), s, list);
      var d := DecodeScalar(fpu, t, Some(name), s, list);
      if d.Got? {
        ItemsAreSafeIff(fpu, gprotos, proto, protos, name, n - 1, d.s, d.json);
      }
      if ScalarEnd(t, s).Some? {
        HarmlessParts(fpu, [Met(t, s)], WalkItems(t, n - 1, ScalarEnd(t, s).value).met);
      }
    }
  }

  /** A whole buffer, decoded into a new object. */
  lemma BufferIsSafeIff(fpu: Fpu, gprotos: Json, schemas: set<Json>, protos: Json, buf: seq<Byte>)
    requires Closed(gprotos, schemas) && protos in schemas
    ensures var s := In(buf, |buf|);
            DecodeMsg(fpu, gprotos, protos, s, Object([])) != Wild <==>
            AllHarmless(fpu, WalkMsg(gprotos, protos, s).met)
  {
    hide DecodeMsg, WalkMsg, AllHarmless, Closed;
    DecodeIsSafeIff(fpu, gprotos, schemas, protos, In(buf, |buf|), Object([]));
  }

  // ---- Two inputs that are harmful

  /** A schema of one field with the tag 1. */
  function OneField(t: string): Json {
    Object([Member("__tags", Object([Member("1", String("name"))])), Member("name", OneProto(t))])
  }

  function OneProto(t: string): Json {
    Object([Member("option", String("optional")), Member("type", String(t)), Member("tag", Number(1, 1.0))])
  }

  lemma OneFieldOf(t: string)
    ensures GetItem(OneField(t), "__tags") == Some(Object([Member("1", String("name"))]))
    ensures GetItem(OneField(t), "name") == Some(OneProto(t))
    ensures GetItem(Object([Member("1", String("name"))]), Digits(1)) == Some(String("name"))
    ensures ItemText(OneProto(t), "option") == Some("optional") && ItemText(OneProto(t), "type") == Some(t)
  {
    assert Digits(1) == "1";
  }

  /** Behind the field's tag the decoder reads a value of its type. */
  lemma OneFieldDecodes(fpu: Fpu, t: string, tag: nat, s: In)
    requires s.Ok() && TypeOf(t) != Message && 8 <= tag < 16
    requires DecodeScalar(fpu, TypeOf(t), Some("name"), s, Object([])) == Wild
    ensures DecodeMsg(fpu, Object([]), OneField(t), Before(Varint(tag), s), Object([])) == Wild
  {
    hide DecodeScalar, ReadVarint32, Find, Digits, OneField, OneProto;
    OneFieldOf(t);
    VarintRoundTrip(tag, s);
    var whole := Before(Varint(tag), s);
    assert whole.left > 0 && tag / 8 == 1;
    assert DecodeProto(fpu, Object([]), OneProto(t), OneField(t), Some("name"), s, Object([])) == Wild;
    assert DecodeField(fpu, Object([]), OneField(t), 1, s, Object([])) == Wild;
  }

  /** A string field that announces 2^32-1 bytes. */
  lemma LongStringFails(fpu: Fpu)
    ensures DecodeMsg(fpu, Object([]), OneField("string"), In([0x0A, 0xFF, 0xFF, 0xFF, 0xFF, 0x0F], 6), Object([]))
         == Wild
  {
    hide DecodeMsg, ReadVarint32, OneField;
    var n := WRAPPING_LENGTH;
    assert Varint(n / 128 / 128 / 128 / 128) == [0x0F] && Varint(n / 128 / 128 / 128) == [0xFF, 0x0F];
    assert Varint(n / 128 / 128) == [0xFF, 0xFF, 0x0F] && Varint(n / 128) == [0xFF, 0xFF, 0xFF, 0x0F];
    assert Varint(n) == [0xFF, 0xFF, 0xFF, 0xFF, 0x0F] && Varint(10) == [0x0A];
    var none := In([], 0);
    var s := Before(Varint(n), none);
    VarintRoundTrip(n, none);
    assert DecodeText(Some("name"), s, Object([])) == Wild;
    OneFieldDecodes(fpu, "string", 10, s);
    assert Before(Varint(10), s) == In([0x0A, 0xFF, 0xFF, 0xFF, 0xFF, 0x0F], 6);
  }

  /** A uInt32 field of 2^31. */
  lemma LargeNumberFails(fpu: Fpu)
    ensures DecodeMsg(fpu, Object([]), OneField("uInt32"), In([0x08, 0x80, 0x80, 0x80, 0x80, 0x08], 6), Object([]))
         == Wild
  {
    hide DecodeMsg, ReadVarint, OneField;
    var n: nat := INT_LIMIT;
    assert Varint(n / 128 / 128 / 128 / 128) == [0x08] && Varint(n / 128 / 128 / 128) == [0x80, 0x08];
    assert Varint(n / 128 / 128) == [0x80, 0x80, 0x08] && Varint(n / 128) == [0x80, 0x80, 0x80, 0x08];
    assert Varint(n) == [0x80, 0x80, 0x80, 0x80, 0x08] && Varint(8) == [0x08];
    var none := In([], 0);
    var s := Before(Varint(n), none);
    VarintRoundTrip(n, none);
    CreateNumberOfInt(n);
    assert DecodeScalar(fpu, UInt32, Some("name"), s, Object([])) == Wild;
    OneFieldDecodes(fpu, "uInt32", 8, s);
    assert Before(Varint(8), s) == In([0x08, 0x80, 0x80, 0x80, 0x80, 0x08], 6);
  }
}
