/** What the protobuf encoder writes, as a function of the two trees it walks
    together: the message and the schema. */
module PbEncodeSpec {
  import opened Basics
  import opened JsonTree
  import opened Words

  datatype FieldType = UInt32 | Int32 | SInt32 | Float | Double | Text | Message

  /** pb_get_type; Message stands for its result 0. */
  function TypeOf(t: string): FieldType {
    if t == "uInt32" then UInt32
    else if t == "int32" then Int32
    else if t == "sInt32" then SInt32
    else if t == "float" then Float
    else if t == "double" then Double
    else if t == "string" then Text
    else Message
  }

  /** pb_get_constant_type. */
  function WireType(t: string): (w: nat)
    ensures w < 8
  {
    match TypeOf(t)
    case UInt32 | Int32 | SInt32 => 0
    case Double => 1
    case Float => 5
    case Text | Message => 2
  }

  /** An array of these is written packed, behind one tag and a count. */
  predicate Packed(t: string) {
    TypeOf(t) != Message && TypeOf(t) != Text
  }

  type Bytes4 = b: seq<Byte> | |b| == 4 witness [0, 0, 0, 0]
  type Bytes8 = b: seq<Byte> | |b| == 8 witness [0, 0, 0, 0, 0, 0, 0, 0]

  /** The machine's floating-point formats, a parameter of the codec: the
      little-endian bytes of a number narrowed to float, of a double, and the
      numbers such bytes denote; None stands for the infinities and NaN. */
  datatype Fpu = Fpu(single: real -> Bytes4, ofSingle: Bytes4 -> Option<real>,
                     double: real -> Bytes8, ofDouble: Bytes8 -> Option<real>)

  /** Result of an encoding pass: the bytes, a refusal (the C function returns
      0), or behaviour C leaves undefined, such as reading through a NULL field of
      the schema or message. */
  datatype Enc = Done(bytes: seq<Byte>) | Refused | Undefined {
    function Then(next: Enc): Enc {
      if this.Done? && next.Done? then Done(bytes + next.bytes)
      else if this.Done? then next
      else this
    }
  }

  /** Field header: the number is a uint32 shifted by three, and the OR with the
      wire type is an addition because the low three bits are free. */
  function Tag(number: int, wireType: nat): nat {
    (number * 8) % U32 + wireType
  }

  function EncodeTag(proto: Json): Enc {
    match ItemText(proto, "type")
    case None => Undefined
    case Some(t) =>
      match GetItem(proto, "tag")
      case None => Undefined
      case Some(tag) => Done(Varint(Tag(ValueInt(tag), WireType(t))))
  }

  /** The schema of a message type: local first, then the root table. */
  function Resolve(gprotos: Json, messages: Json, t: string): Option<Json> {
    match GetItem(messages, t)
    case Some(sub) => Some(sub)
    case None => GetItem(gprotos, "message " + t)
  }

  /** A length written as a varint.  Array and string lengths are C ints and
      message sizes are size_t: a length the type cannot hold is Undefined. */
  function Count(n: nat, limit: nat): Enc {
    if n < limit then Done(Varint(n)) else Undefined
  }

  const INT_LIMIT: int := 0x8000_0000

  function LengthPrefixed(e: Enc): Enc {
    match e
    case Done(b) => Count(|b|, U64).Then(e)
    case _ => e
  }

  function EncodeMsg(fpu: Fpu, gprotos: Json, protos: Json, msg: Json): Enc
    decreases msg, 1
  {
    match msg
    case Object(ms) => EncodeMembers(fpu, gprotos, protos, ms)
    case Array(items) => if items == [] then Done([]) else Undefined
    case _ => Done([])
  }

  function EncodeMembers(fpu: Fpu, gprotos: Json, protos: Json, ms: seq<Member>): Enc
    decreases ms, 0
  {
    if ms == [] then Done([])
    else EncodeMember(fpu, gprotos, protos, ms[0]).Then(EncodeMembers(fpu, gprotos, protos, ms[1..]))
  }

  function EncodeMember(fpu: Fpu, gprotos: Json, protos: Json, m: Member): Enc
    decreases m, 5
  {
    match GetItem(protos, m.name)
    case None => if Unnamed(protos) then Undefined else Refused
    case Some(proto) =>
      match ItemText(proto, "option")
      case None => Undefined
      case Some(option) =>
        if option == "required" || option == "optional" then
          EncodeTag(proto).Then(EncodeProto(fpu, gprotos, protos, proto, m.value))
        else if option == "repeated" then
          match m.value
          case Array(items) => EncodeArray(fpu, gprotos, protos, proto, items)
          case _ => Done([])
        else
          Done([])
  }

  function EncodeArray(fpu: Fpu, gprotos: Json, protos: Json, proto: Json, items: seq<Json>): Enc
    decreases items, 3
  {
    match ItemText(proto, "type")
    case None => Undefined
    case Some(t) =>
      if Packed(t) then
        EncodeTag(proto).Then(Count(|items|, INT_LIMIT))
                        .Then(EncodeItems(fpu, gprotos, protos, proto, items, false))
      else
        EncodeItems(fpu, gprotos, protos, proto, items, true)
  }

  function EncodeItems(fpu: Fpu, gprotos: Json, protos: Json, proto: Json, items: seq<Json>, tagged: bool): Enc
    decreases items, 2
  {
    if items == [] then Done([])
    else
      EncodeItem(fpu, gprotos, protos, proto, items[0], tagged)
      .Then(EncodeItems(fpu, gprotos, protos, proto, items[1..], tagged))
  }

  /** The items of an array that is not packed carry a tag each. */
  function EncodeItem(fpu: Fpu, gprotos: Json, protos: Json, proto: Json, item: Json, tagged: bool): Enc
    decreases item, 3
  {
    var e := EncodeProto(fpu, gprotos, protos, proto, item);
    if tagged then EncodeTag(proto).Then(e) else e
  }

  function EncodeProto(fpu: Fpu, gprotos: Json, protos: Json, proto: Json, value: Json): Enc
    decreases value, 2
  {
    match ItemText(proto, "type")
    case None => Undefined
    case Some(t) =>
      match TypeOf(t)
      case UInt32 => Done(Varint(ToU64(ValueInt(value))))
      case Int32 | SInt32 => Done(Varint(ToU64(ZigZag(ValueInt(value)))))
      case Float => Done(fpu.single(ValueDouble(value)))
      case Double => Done(fpu.double(ValueDouble(value)))
      case Text =>
        (match ValueString(value)
         case None => Undefined
         case Some(s) => Count(|s|, INT_LIMIT).Then(Done(ToBytes(s))))
      case Message =>
        match GetItem(protos, "__messages")
        case None => if Unnamed(protos) then Undefined else Done([])
        case Some(messages) =>
          if Unnamed(messages) then Undefined
          else match Resolve(gprotos, messages, t)
          case None => if Unnamed(gprotos) then Undefined else Refused
          case Some(sub) => LengthPrefixed(EncodeMsg(fpu, gprotos, sub, value))
  }
}
