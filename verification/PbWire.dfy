/** The bytes of a message as any reader of the wire format sees them: fields with numbers
    and payloads, told apart by the low three bits of their tags ("Message Structure" in the
    Protocol Buffers Encoding specification). */
module PbWire {
  import opened Basics
  import opened JsonTree
  import opened PbEncodeSpec
  import opened PbRoundTrip
  import opened Words

  // ---- A reader that knows no schema

  datatype Payload =
    | Num(value: nat)
    | Eight(bytes: seq<Byte>)
    | Chunk(bytes: seq<Byte>)
    | Four(bytes: seq<Byte>)
    | List(items: seq<Payload>)

  datatype Field = Field(number: nat, payload: Payload)

  function TakeVarint(b: seq<Byte>): (r: Option<(nat, seq<Byte>)>)
    ensures r.Some? ==> |r.value.1| < |b|
  {
    if b == [] then None
    else if b[0] < 128 then Some((b[0], b[1..]))
    else match TakeVarint(b[1..])
      case Some((v, rest)) => Some((b[0] % 128 + 128 * v, rest))
      case None => None
  }

  /** A payload by the low bits of its tag. */
  function TakePayload(low: nat, b: seq<Byte>): (r: Option<(Payload, seq<Byte>)>)
    ensures r.Some? ==> |r.value.1| < |b|
  {
    if low == 0 then
      match TakeVarint(b)
      case Some((v, rest)) => Some((Num(v), rest))
      case None => None
    else if low == 1 && |b| >= 8 then Some((Eight(b[..8]), b[8..]))
    else if low == 2 then
      match TakeVarint(b)
      case Some((n, rest)) => if n <= |rest| then Some((Chunk(rest[..n]), rest[n..])) else None
      case None => None
    else if low == 5 && |b| >= 4 then Some((Four(b[..4]), b[4..]))
    else None
  }

  function TakeList(low: nat, count: nat, b: seq<Byte>): (r: Option<(seq<Payload>, seq<Byte>)>)
    ensures r.Some? ==> |r.value.1| <= |b|
    decreases count
  {
    if count == 0 then Some(([], b))
    else match TakePayload(low, b)
      case None => None
      case Some((p, rest)) =>
        match TakeList(low, count - 1, rest)
        case Some((ps, end)) => Some(([p] + ps, end))
        case None => None
  }

  /** One field; of those numbered so, a count and as many payloads. */
  function TakeField(packed: nat -> bool, b: seq<Byte>): (r: Option<(Field, seq<Byte>)>)
    ensures r.Some? ==> |r.value.1| < |b|
  {
    match TakeVarint(b)
    case None => None
    case Some((tag, rest)) =>
      if packed(tag / 8) then
        match TakeVarint(rest)
        case None => None
        case Some((count, items)) =>
          match TakeList(tag % 8, count, items)
          case Some((ps, end)) => Some((Field(tag / 8, List(ps)), end))
          case None => None
      else
        match TakePayload(tag % 8, rest)
        case Some((p, end)) => Some((Field(tag / 8, p), end))
        case None => None
  }

  /** All the fields, up to the end of the bytes. */
  function TakeFields(packed: nat -> bool, b: seq<Byte>): Option<seq<Field>>
    decreases |b|
  {
    if b == [] then Some([])
    else match TakeField(packed, b)
      case None => None
      case Some((f, rest)) =>
        match TakeFields(packed, rest)
        case Some(fs) => Some([f] + fs)
        case None => None
  }

  // ---- What a message has to look like to it

  /** The schema of a nested message: among the messages of its parent, or in the root table
      under "message " and its name. */
  function MessageSchema(gprotos: Json, protos: Json, t: string): Option<Json> {
    match GetItem(protos, "__messages")
    case None => None
    case Some(own) =>
      match GetItem(own, t)
      case Some(sub) => Some(sub)
      case None => GetItem(gprotos, "message " + t)
  }

  /** The value of a field by the type its schema names. */
  ghost function PayloadOf(fpu: Fpu, gprotos: Json, protos: Json, t: string, v: Json): Payload {
    if t == "uInt32" then Num(if ValueInt(v) < 0 then 0 else ValueInt(v))
    else if t == "int32" || t == "sInt32" then
      Num(if ValueInt(v) < 0 then -2 * ValueInt(v) - 1 else 2 * ValueInt(v))
    else if t == "float" then Four(fpu.single(ValueDouble(v)))
    else if t == "double" then Eight(fpu.double(ValueDouble(v)))
    else if t == "string" then Chunk(if v.String? then ToBytes(v.text) else [])
    else match MessageSchema(gprotos, protos, t)
      case Some(sub) => Chunk(EncodedBytes(EncodeMsg(fpu, gprotos, sub, v)))
      case None => Chunk([])
  }

  function EncodedBytes(e: Enc): seq<Byte> {
    match e
    case Done(b) => b
    case _ => []
  }

  ghost function Payloads(fpu: Fpu, gprotos: Json, protos: Json, t: string, items: seq<Json>): seq<Payload> {
    seq(|items|, i requires 0 <= i < |items| => PayloadOf(fpu, gprotos, protos, t, items[i]))
  }

  /** Arrays of these are packed. */
  predicate PackedType(t: string) {
    t == "uInt32" || t == "int32" || t == "sInt32" || t == "float" || t == "double"
  }

  /** The numbers of the packed arrays: repeated fields of these types. */
  function PackedNumbers(protos: Json): nat -> bool {
    (number: nat) =>
      match GetItem(protos, "__tags")
      case None => false
      case Some(tags) =>
        match ItemText(tags, Digits(number))
        case None => false
        case Some(name) =>
          match GetItem(protos, name)
          case None => false
          case Some(proto) =>
            ItemText(proto, "option") == Some("repeated")
            && ItemText(proto, "type").Some? && PackedType(ItemText(proto, "type").value)
  }

  /** The fields of one member. */
  ghost function MemberFields(fpu: Fpu, gprotos: Json, protos: Json, m: Member): seq<Field>
    requires WellTypedMember(fpu, gprotos, protos, m)
  {
    var proto := GetItem(protos, m.name).value;
    var number, t := ValueInt(GetItem(proto, "tag").value), ItemText(proto, "type").value;
    if ItemText(proto, "option").value != "repeated" then
      [Field(number, PayloadOf(fpu, gprotos, protos, t, m.value))]
    else
      var ps := Payloads(fpu, gprotos, protos, t, m.value.items);
      if PackedType(t) then [Field(number, List(ps))]
      else seq(|ps|, i requires 0 <= i < |ps| => Field(number, ps[i]))
  }

  ghost function MessageFields(fpu: Fpu, gprotos: Json, protos: Json, ms: seq<Member>): seq<Field>
    requires forall m <- ms :: WellTypedMember(fpu, gprotos, protos, m)
  {
    if ms == [] then []
    else MemberFields(fpu, gprotos, protos, ms[0]) + MessageFields(fpu, gprotos, protos, ms[1..])
  }

  // ---- Reading what the encoder writes

  lemma {:induction false} VarintTaken(v: nat, rest: seq<Byte>)
    ensures TakeVarint(Varint(v) + rest) == Some((v, rest))
    decreases v
  {
    if v < 128 {
      assert ([v] + rest)[1..] == rest;
    } else {
      VarintTaken(v / 128, rest);
      var first: Byte := v % 128 + 128;
      assert Varint(v) + rest == [first] + (Varint(v / 128) + rest);
      assert ([first] + (Varint(v / 128) + rest))[1..] == Varint(v / 128) + rest;
      assert first % 128 == v % 128;
    }
  }

  lemma ChunkTaken(b: seq<Byte>, rest: seq<Byte>)
    ensures TakePayload(2, Varint(|b|) + b + rest) == Some((Chunk(b), rest))
  {
    VarintTaken(|b|, b + rest);
    assert Varint(|b|) + b + rest == Varint(|b|) + (b + rest);
    assert (b + rest)[..|b|] == b && (b + rest)[|b|..] == rest;
  }

  lemma NumTaken(v: nat, rest: seq<Byte>)
    ensures TakePayload(0, Varint(v) + rest) == Some((Num(v), rest))
  {
    VarintTaken(v, rest);
  }

  lemma EightTaken(b: Bytes8, rest: seq<Byte>)
    ensures TakePayload(1, b + rest) == Some((Eight(b), rest))
  {
  }

  lemma FourTaken(b: Bytes4, rest: seq<Byte>)
    ensures TakePayload(5, b + rest) == Some((Four(b), rest))
  {
  }

  lemma ValueTaken(fpu: Fpu, gprotos: Json, protos: Json, proto: Json, v: Json, rest: seq<Byte>)
    requires ItemText(proto, "type").Some?
    requires WellTypedValue(fpu, gprotos, protos, ItemText(proto, "type").value, v)
    requires EncodeProto(fpu, gprotos, protos, proto, v).Done?
    ensures var t := ItemText(proto, "type").value;
            TakePayload(WireType(t), EncodeProto(fpu, gprotos, protos, proto, v).bytes + rest)
            == Some((PayloadOf(fpu, gprotos, protos, t, v), rest))
  {
    hide TakePayload, Varint, Find, EncodeMsg, WellTyped;
    var t := ItemText(proto, "type").value;
    match TypeOf(t)
    case UInt32 => NumTaken(v.valueint, rest);
    case Int32 | SInt32 =>
      ZigZagSmall(v.valueint);
      NumTaken(ZigZag(v.valueint), rest);
    case Float => FourTaken(fpu.single(ValueDouble(v)), rest);
    case Double => EightTaken(fpu.double(ValueDouble(v)), rest);
    case Text => ChunkTaken(ToBytes(v.text), rest);
    case Message =>
      var sub := SubSchema(gprotos, protos, t).value;
      ChunkTaken(EncodeMsg(fpu, gprotos, sub, v).bytes, rest);
  }

  lemma PackedTypes(t: string)
    ensures PackedType(t) <==> Packed(t)
  {
  }

  /** The header of a field: its number and the low bits of its type. */
  lemma TagTaken(proto: Json, number: nat, rest: seq<Byte>)
    requires ItemText(proto, "type").Some? && GetItem(proto, "tag").Some?
    requires number == ValueInt(GetItem(proto, "tag").value) < 0x2000_0000
    ensures EncodeTag(proto).Done? && EncodeTag(proto).bytes != []
    ensures var tag := number * 8 + WireType(ItemText(proto, "type").value);
            && TakeVarint(EncodeTag(proto).bytes + rest) == Some((tag, rest))
            && tag / 8 == number && tag % 8 == WireType(ItemText(proto, "type").value)
  {
    hide Find, Varint;
    var t := ItemText(proto, "type").value;
    VarintTaken(Tag(number, WireType(t)), rest);
  }

  lemma {:induction false} ListTaken(fpu: Fpu, gprotos: Json, protos: Json, proto: Json, items: seq<Json>,
                                     rest: seq<Byte>)
    requires ItemText(proto, "type").Some?
    requires forall v <- items :: WellTypedValue(fpu, gprotos, protos, ItemText(proto, "type").value, v)
    requires EncodeItems(fpu, gprotos, protos, proto, items, false).Done?
    ensures var t := ItemText(proto, "type").value;
            TakeList(WireType(t), |items|, EncodeItems(fpu, gprotos, protos, proto, items, false).bytes + rest)
            == Some((Payloads(fpu, gprotos, protos, t, items), rest))
    decreases items
  {
    hide TakePayload, Find, EncodeProto, PayloadOf, Payloads, WellTypedValue;
    var t := ItemText(proto, "type").value;
    if items == [] {
      assert [] + rest == rest;
      NoPayloads(fpu, gprotos, protos, t);
    } else {
      var a := EncodeProto(fpu, gprotos, protos, proto, items[0]).bytes;
      var b := EncodeItems(fpu, gprotos, protos, proto, items[1..], false).bytes;
      assert a + b + rest == a + (b + rest);
      ValueTaken(fpu, gprotos, protos, proto, items[0], b + rest);
      ListTaken(fpu, gprotos, protos, proto, items[1..], rest);
      PayloadsFirst(fpu, gprotos, protos, t, items);
    }
  }

  lemma PayloadsFirst(fpu: Fpu, gprotos: Json, protos: Json, t: string, items: seq<Json>)
    requires items != []
    ensures Payloads(fpu, gprotos, protos, t, items)
         == [PayloadOf(fpu, gprotos, protos, t, items[0])] + Payloads(fpu, gprotos, protos, t, items[1..])
  {
    hide PayloadOf;
  }

  lemma NoPayloads(fpu: Fpu, gprotos: Json, protos: Json, t: string)
    ensures Payloads(fpu, gprotos, protos, t, []) == []
  {
  }

  function Prefixed(fs: seq<Field>, more: Option<seq<Field>>): Option<seq<Field>> {
    match more
    case Some(gs) => Some(fs + gs)
    case None => None
  }

  lemma FieldFirst(packed: nat -> bool, b: seq<Byte>, f: Field, rest: seq<Byte>)
    requires b != [] && TakeField(packed, b) == Some((f, rest))
    ensures TakeFields(packed, b) == Prefixed([f], TakeFields(packed, rest))
  {
    hide TakeField;
  }

  /** A field with one payload. */
  lemma PlainTaken(fpu: Fpu, gprotos: Json, protos: Json, proto: Json, number: nat, v: Json, packed: nat -> bool,
                   rest: seq<Byte>)
    requires ItemText(proto, "type").Some? && GetItem(proto, "tag").Some? && !packed(number)
    requires number == ValueInt(GetItem(proto, "tag").value) < 0x2000_0000
    requires WellTypedValue(fpu, gprotos, protos, ItemText(proto, "type").value, v)
    requires EncodeTag(proto).Then(EncodeProto(fpu, gprotos, protos, proto, v)).Done?
    ensures TakeFields(packed, EncodeTag(proto).Then(EncodeProto(fpu, gprotos, protos, proto, v)).bytes + rest)
         == Prefixed([Field(number, PayloadOf(fpu, gprotos, protos, ItemText(proto, "type").value, v))],
                     TakeFields(packed, rest))
  {
    hide TakePayload, TakeFields, TakeVarint, Find, EncodeProto, EncodeTag, PayloadOf, WellTypedValue;
    var a, b := EncodeTag(proto).bytes, EncodeProto(fpu, gprotos, protos, proto, v).bytes;
    assert a + b + rest == a + (b + rest);
    TagTaken(proto, number, b + rest);
    ValueTaken(fpu, gprotos, protos, proto, v, rest);
    FieldFirst(packed, a + b + rest,
               Field(number, PayloadOf(fpu, gprotos, protos, ItemText(proto, "type").value, v)), rest);
  }

  /** A packed array: one header, a count, the payloads. */
  lemma PackedTaken(fpu: Fpu, gprotos: Json, protos: Json, proto: Json, number: nat, items: seq<Json>,
                    packed: nat -> bool, rest: seq<Byte>)
    requires ItemText(proto, "type").Some? && GetItem(proto, "tag").Some? && packed(number)
    requires number == ValueInt(GetItem(proto, "tag").value) < 0x2000_0000 && Packed(ItemText(proto, "type").value)
    requires forall v <- items :: WellTypedValue(fpu, gprotos, protos, ItemText(proto, "type").value, v)
    requires EncodeArray(fpu, gprotos, protos, proto, items).Done?
    ensures TakeFields(packed, EncodeArray(fpu, gprotos, protos, proto, items).bytes + rest)
         == Prefixed([Field(number, List(Payloads(fpu, gprotos, protos, ItemText(proto, "type").value, items)))],
                     TakeFields(packed, rest))
  {
    hide TakePayload, TakeFields, TakeVarint, TakeList, Find, EncodeItems, EncodeTag, Payloads, WellTypedValue, Varint;
    var a, c := EncodeTag(proto).bytes, Varint(|items|);
    var b := EncodeItems(fpu, gprotos, protos, proto, items, false).bytes;
    assert a + c + b + rest == a + (c + (b + rest));
    TagTaken(proto, number, c + (b + rest));
    VarintTaken(|items|, b + rest);
    ListTaken(fpu, gprotos, protos, proto, items, rest);
    FieldFirst(packed, a + (c + (b + rest)),
               Field(number, List(Payloads(fpu, gprotos, protos, ItemText(proto, "type").value, items))), rest);
  }

  ghost function Repeated(fpu: Fpu, gprotos: Json, protos: Json, t: string, number: nat, items: seq<Json>): seq<Field> {
    var ps := Payloads(fpu, gprotos, protos, t, items);
    seq(|ps|, i requires 0 <= i < |ps| => Field(number, ps[i]))
  }

  /** An array that is not packed: a field for every element. */
  lemma {:induction false} TaggedTaken(fpu: Fpu, gprotos: Json, protos: Json, proto: Json, number: nat,
                                       items: seq<Json>, packed: nat -> bool, rest: seq<Byte>)
    requires ItemText(proto, "type").Some? && GetItem(proto, "tag").Some? && !packed(number)
    requires number == ValueInt(GetItem(proto, "tag").value) < 0x2000_0000
    requires forall v <- items :: WellTypedValue(fpu, gprotos, protos, ItemText(proto, "type").value, v)
    requires EncodeItems(fpu, gprotos, protos, proto, items, true).Done?
    ensures TakeFields(packed, EncodeItems(fpu, gprotos, protos, proto, items, true).bytes + rest)
         == Prefixed(Repeated(fpu, gprotos, protos, ItemText(proto, "type").value, number, items),
                     TakeFields(packed, rest))
    decreases items
  {
    hide TakeFields, Find, EncodeProto, EncodeTag, PayloadOf, WellTypedValue;
    var t := ItemText(proto, "type").value;
    if items == [] {
      assert [] + rest == rest;
      NoFields(Repeated(fpu, gprotos, protos, t, number, items), TakeFields(packed, rest));
    } else {
      var first := EncodeTag(proto).Then(EncodeProto(fpu, gprotos, protos, proto, items[0]));
      var more := EncodeItems(fpu, gprotos, protos, proto, items[1..], true);
      assert first.bytes + more.bytes + rest == first.bytes + (more.bytes + rest);
      PlainTaken(fpu, gprotos, protos, proto, number, items[0], packed, more.bytes + rest);
      TaggedTaken(fpu, gprotos, protos, proto, number, items[1..], packed, rest);
      var f := Field(number, PayloadOf(fpu, gprotos, protos, t, items[0]));
      assert Repeated(fpu, gprotos, protos, t, number, items)
          == [f] + Repeated(fpu, gprotos, protos, t, number, items[1..]);
      TwoPrefixes([f], Repeated(fpu, gprotos, protos, t, number, items[1..]), TakeFields(packed, rest));
    }
  }

  lemma NoFields(fs: seq<Field>, more: Option<seq<Field>>)
    requires fs == []
    ensures Prefixed(fs, more) == more
  {
    match more
    case Some(gs) => assert [] + gs == gs;
    case None =>
  }

  lemma TwoPrefixes(a: seq<Field>, b: seq<Field>, more: Option<seq<Field>>)
    ensures Prefixed(a, Prefixed(b, more)) == Prefixed(a + b, more)
  {
    match more
    case Some(gs) => assert a + (b + gs) == a + b + gs;
    case None =>
  }

  /** Which numbers are packed, for a field the schema describes. */
  lemma NumberOf(protos: Json, name: string, proto: Json)
    requires GetItem(protos, name) == Some(proto) && FieldOk(protos, name, proto)
    ensures PackedNumbers(protos)(ValueInt(GetItem(proto, "tag").value))
       <==> ItemText(proto, "option").value == "repeated" && PackedType(ItemText(proto, "type").value)
  {
    hide Find, Digits;
  }

  lemma MemberTaken(fpu: Fpu, gprotos: Json, protos: Json, m: Member, rest: seq<Byte>)
    requires WellTypedMember(fpu, gprotos, protos, m) && EncodeMember(fpu, gprotos, protos, m).Done?
    ensures TakeFields(PackedNumbers(protos), EncodeMember(fpu, gprotos, protos, m).bytes + rest)
         == Prefixed(MemberFields(fpu, gprotos, protos, m), TakeFields(PackedNumbers(protos), rest))
  {
    hide TakeFields, Find, EncodeProto, EncodeTag, EncodeItems, PayloadOf, WellTypedValue, PackedNumbers, Payloads;
    hide PackedType, Packed, Varint;
    var proto := GetItem(protos, m.name).value;
    var number, t := ValueInt(GetItem(proto, "tag").value), ItemText(proto, "type").value;
    var packed := PackedNumbers(protos);
    NumberOf(protos, m.name, proto);
    PackedTypes(t);
    if ItemText(proto, "option").value != "repeated" {
      PlainTaken(fpu, gprotos, protos, proto, number, m.value, packed, rest);
    } else if Packed(t) {
      PackedTaken(fpu, gprotos, protos, proto, number, m.value.items, packed, rest);
    } else {
      TaggedTaken(fpu, gprotos, protos, proto, number, m.value.items, packed, rest);
    }
  }

  lemma {:induction false} MembersTaken(fpu: Fpu, gprotos: Json, protos: Json, ms: seq<Member>)
    requires forall m <- ms :: WellTypedMember(fpu, gprotos, protos, m)
    requires EncodeMembers(fpu, gprotos, protos, ms).Done?
    ensures TakeFields(PackedNumbers(protos), EncodeMembers(fpu, gprotos, protos, ms).bytes)
         == Some(MessageFields(fpu, gprotos, protos, ms))
    decreases ms
  {
    hide TakeField, Find, EncodeMember, MemberFields, WellTypedMember, PackedNumbers;
    if ms != [] {
      MembersTaken(fpu, gprotos, protos, ms[1..]);
      MemberTaken(fpu, gprotos, protos, ms[0], EncodeMembers(fpu, gprotos, protos, ms[1..]).bytes);
    }
  }

  /** Any reader of the wire format splits an encoded message into whole fields: those of the
      members, in order, each with the number of its schema and its payload. */
  lemma MessageIsFields(fpu: Fpu, gprotos: Json, protos: Json, msg: Json)
    requires WellTyped(fpu, gprotos, protos, msg) && EncodeMsg(fpu, gprotos, protos, msg).Done?
    ensures TakeFields(PackedNumbers(protos), EncodeMsg(fpu, gprotos, protos, msg).bytes)
         == Some(MessageFields(fpu, gprotos, protos, msg.members))
  {
    hide TakeFields, EncodeMembers, MessageFields, WellTypedMember, PackedNumbers;
    MembersTaken(fpu, gprotos, protos, msg.members);
  }

  /** In a number's place whatever is no number is written as 0, and `true` as 1 where an
      integer belongs. */
  lemma OddNumbers(fpu: Fpu, gprotos: Json, protos: Json, proto: Json, t: string, v: Json)
    requires ItemText(proto, "type") == Some(t) && PackedType(t) && !v.Number?
    ensures var written: Byte := if v.True? then if t == "uInt32" then 1 else 2 else 0;
            EncodeProto(fpu, gprotos, protos, proto, v)
            == Done(if t == "float" then fpu.single(0.0) else if t == "double" then fpu.double(0.0) else [written])
  {
    hide Find;
  }

  /** Of a message that is no object nothing is written; the elements of an array have no names
      to look up. */
  lemma NoObject(fpu: Fpu, gprotos: Json, protos: Json, msg: Json)
    requires !msg.Object?
    ensures EncodeMsg(fpu, gprotos, protos, msg) == if msg.Array? && msg.items != [] then Undefined else Done([])
  {
  }

  /** A member the schema calls neither required, optional nor repeated, and a repeated one
      that is no array, are left out; one without a schema stops the encoder. */
  lemma OtherMembers(fpu: Fpu, gprotos: Json, protos: Json, m: Member, proto: Json, option: string)
    requires GetItem(protos, m.name) == Some(proto) && ItemText(proto, "option") == Some(option)
    requires option != "required" && option != "optional" && (option == "repeated" ==> !m.value.Array?)
    ensures EncodeMember(fpu, gprotos, protos, m) == Done([])
    ensures protos.Object? ==> EncodeMember(fpu, gprotos, Object([]), m) == Refused
  {
  }
}
