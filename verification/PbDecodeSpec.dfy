/** What the protobuf decoder makes of a byte string, as a function of the unread
    input, the schema and the tree built so far. */
module PbDecodeSpec {
  import opened Basics
  import opened JsonTree
  import opened PbEncodeSpec
  import opened Words

  /** An input stream: the bytes from the read pointer on, and `bytes_left`.  The
      two are separate because closing a substream moves the pointer only to where
      the submessage stopped, which a zero tag may make earlier than its end. */
  datatype In = In(rest: seq<Byte>, left: nat) {
    predicate Ok() { left <= |rest| }

    /** This stream is what is left of `from`: reads moved both ends forward and the
        pointer never overtook `bytes_left`. */
    predicate Follows(from: In) {
      && Ok() && left <= from.left && |rest| <= |from.rest|
      && |from.rest| - from.left <= |rest| - left
    }

    function Skip(n: nat): (s: In)
      requires Ok() && n <= left
      ensures s.Follows(this)
    {
      In(rest[n..], left - n)
    }
  }

  /** pb_decode_varint: status, value and the stream after it, also on failure. */
  datatype VarintResult = VarintResult(ok: bool, value: nat, s: In)

  function ReadVarint(s: In, bitpos: nat, dest: nat): (r: VarintResult)
    requires s.Ok()
    ensures r.s.Follows(s)
    ensures r.ok || (bitpos < 64 && s.left > 0) ==> r.s.left < s.left
    decreases s.left
  {
    if bitpos < 64 && s.left >= 1 then
      var byte := s.rest[0];
      var value := dest + (byte % 128 * Pow2(bitpos)) % U64;
      if byte < 128 then VarintResult(true, value, s.Skip(1))
      else ReadVarint(s.Skip(1), bitpos + 7, value)
    else
      VarintResult(false, dest, s)
  }

  /** pb_decode_varint32 casts the value to uint32. */
  function ReadVarint32(s: In): (r: VarintResult)
    requires s.Ok()
    ensures r.s.Follows(s)
    ensures r.ok || s.left > 0 ==> r.s.left < s.left
  {
    var r := ReadVarint(s, 0, 0);
    if r.ok then VarintResult(true, r.value % U32, r.s) else r
  }

  /** Result of a decoding call: the tree and the stream after it, a refusal (the
      C function returns 0), or behaviour C leaves undefined. */
  datatype Dec = Got(json: Json, s: In) | Bad | Wild

  /** Appends an item: with its key to an object, without one to an array. */
  function Attach(result: Json, key: Option<string>, item: Json, s: In): Dec {
    match result
    case Object(ms) => if key.Some? then Got(Object(ms + [Member(key.value, item)]), s) else Wild
    case Array(items) => Got(Array(items + [item]), s)
    case _ => Wild
  }

  function DecodeMsg(fpu: Fpu, gprotos: Json, protos: Json, s: In, result: Json): (r: Dec)
    requires s.Ok()
    ensures r.Got? ==> r.s.Follows(s)
    decreases s.left, 4
  {
    if s.left == 0 then Got(result, s)
    else
      var tag := ReadVarint32(s);
      if !tag.ok then
        if tag.s.left == 0 then Got(result, tag.s) else Bad
      else if tag.value == 0 then
        Got(result, tag.s)
      else
        match DecodeField(fpu, gprotos, protos, tag.value / 8, tag.s, result)
        case Got(next, after) => DecodeMsg(fpu, gprotos, protos, after, next)
        case bad => bad
  }

  /** One turn of pb_decode's loop, after the tag: the name by number, the field by name. */
  function DecodeField(fpu: Fpu, gprotos: Json, protos: Json, number: nat, s: In, result: Json): (r: Dec)
    requires s.Ok()
    ensures r.Got? ==> r.s.Follows(s)
    decreases s.left, 3
  {
    match GetItem(protos, "__tags")
    case None => if Unnamed(protos) then Wild else Bad
    case Some(tags) =>
      match GetItem(tags, Digits(number))
      case None => if Unnamed(tags) then Wild else Bad
      case Some(tag) =>
        match ValueString(tag)
        case None => Wild
        case Some(name) =>
          match GetItem(protos, name)
          case None => Bad
          case Some(proto) =>
            match ItemText(proto, "option")
            case None => Wild
            case Some(option) =>
              if option == "optional" || option == "required" then
                DecodeProto(fpu, gprotos, proto, protos, Some(name), s, result)
              else if option == "repeated" then
                DecodeArray(fpu, gprotos, proto, protos, name, s, result)
              else
                Got(result, s)
  }

  function DecodeArray(fpu: Fpu, gprotos: Json, proto: Json, protos: Json, key: string, s: In, result: Json): (r: Dec)
    requires s.Ok()
    ensures r.Got? ==> r.s.Follows(s)
    decreases s.left, 2
  {
    match ItemText(proto, "type")
    case None => Wild
    case Some(t) =>
      var found := GetItem(result, key);
      var list := if found.Some? then found.value else Array([]);
      if !result.Object? || !list.Array? then Wild
      else
        match DecodeElements(fpu, gprotos, proto, protos, t, key, s, list)
        case Got(list', after) =>
          if found.Some? then Got(Object(Update(result.members, key, list')), after)
          else Attach(result, Some(key), list', after)
        case bad => bad
  }

  /** What one occurrence of a repeated field adds to its list. */
  function DecodeElements(fpu: Fpu, gprotos: Json, proto: Json, protos: Json, t: string, key: string, s: In,
                          list: Json): (r: Dec)
    requires s.Ok()
    ensures r.Got? ==> r.s.Follows(s)
    decreases s.left, 1, 1
  {
    if Packed(t) then
      var size := ReadVarint32(s);
      if size.ok then DecodeItems(fpu, gprotos, proto, protos, key, size.value, size.s, list) else Bad
    else if TypeOf(t) == Text then
      DecodeProto(fpu, gprotos, proto, protos, Some(key), s, list)
    else
      match DecodeProto(fpu, gprotos, proto, protos, None, s, Object([]))
      case Got(item, after) => Attach(list, None, item, after)
      case bad => bad
  }

  function DecodeItems(fpu: Fpu, gprotos: Json, proto: Json, protos: Json, key: string, n: nat, s: In,
                       list: Json): (r: Dec)
    requires s.Ok()
    ensures r.Got? ==> r.s.Follows(s)
    decreases s.left, 1, 0, n
  {
    if n == 0 then Got(list, s)
    else
      match DecodeProto(fpu, gprotos, proto, protos, Some(key), s, list)
      case Got(next, after) => DecodeItems(fpu, gprotos, proto, protos, key, n - 1, after, next)
      case bad => bad
  }

  /** Appends a number, unless its conversion to the int field is undefined. */
  function AttachNumber(result: Json, key: Option<string>, d: Option<real>, s: In): Dec {
    if d.Some? && FitsInt(d.value) then Attach(result, key, CreateNumber(d.value), s) else Wild
  }

  /** The one string length whose buffer size wraps round to 0. */
  const WRAPPING_LENGTH: nat := U32 - 1

  function DecodeText(key: Option<string>, s: In, result: Json): (r: Dec)
    requires s.Ok()
    ensures r.Got? ==> r.s.Follows(s)
  {
    var len := ReadVarint32(s);
    if !len.ok then Bad
    else if len.value == WRAPPING_LENGTH then Wild
    else if len.s.left < len.value then Bad
    else Attach(result, key, String(FromBytes(len.s.rest[..len.value])), len.s.Skip(len.value))
  }

  /** The cases of pb_decode_proto that read a number or a string. */
  function DecodeScalar(fpu: Fpu, t: FieldType, key: Option<string>, s: In, result: Json): (r: Dec)
    requires s.Ok() && t != Message
    ensures r.Got? ==> r.s.Follows(s)
  {
    match t
    case UInt32 =>
      var v := ReadVarint(s, 0, 0);
      if v.ok then AttachNumber(result, key, Some(v.value as real), v.s) else Bad
    case Int32 | SInt32 =>
      var v := ReadVarint(s, 0, 0);
      if v.ok then AttachNumber(result, key, Some(UnZigZag(v.value) as real), v.s) else Bad
    case Float =>
      if s.left < 4 then Bad
      else AttachNumber(result, key, fpu.ofSingle(s.rest[..4]), s.Skip(4))
    case Double =>
      if s.left < 8 then Bad
      else AttachNumber(result, key, fpu.ofDouble(s.rest[..8]), s.Skip(8))
    case Text => DecodeText(key, s, result)
  }

  function DecodeProto(fpu: Fpu, gprotos: Json, proto: Json, protos: Json, key: Option<string>, s: In,
                       result: Json): (r: Dec)
    requires s.Ok()
    ensures r.Got? ==> r.s.Follows(s)
    decreases s.left, 0
  {
    match ItemText(proto, "type")
    case None => Wild
    case Some(t) =>
      if TypeOf(t) != Message then DecodeScalar(fpu, TypeOf(t), key, s, result)
      else
        match GetItem(protos, "__messages")
        case None => if Unnamed(protos) then Wild else Got(result, s)
        case Some(messages) =>
          if Unnamed(messages) then Wild
          else match Resolve(gprotos, messages, t)
          case None => if Unnamed(gprotos) then Wild else Bad
          case Some(sub) =>
            if key.None? then DecodeSubmessage(fpu, gprotos, sub, s, result)
            else
              match DecodeSubmessage(fpu, gprotos, sub, s, Object([]))
              case Got(value, after) => Attach(result, key, value, after)
              case bad => bad
  }

  /** The submessage is read from a substream of the announced length. */
  function DecodeSubmessage(fpu: Fpu, gprotos: Json, protos: Json, s: In, dest: Json): (r: Dec)
    requires s.Ok()
    ensures r.Got? ==> r.s.Follows(s)
    decreases s.left, 0, 0
  {
    var size := ReadVarint32(s);
    if !size.ok || size.s.left < size.value then Bad
    else
      match DecodeMsg(fpu, gprotos, protos, In(size.s.rest, size.value), dest)
      case Got(json, end) => Got(json, In(end.rest, size.s.left - size.value))
      case bad => bad
  }
}
