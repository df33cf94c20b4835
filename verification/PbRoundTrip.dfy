/** Decoding inverts encoding: every well-typed message comes back from its bytes,
    member by member in the same order. */
module PbRoundTrip {
  import opened Basics
  import opened JsonTree
  import opened PbDecodeSpec
  import opened PbEncodeSpec
  import opened Words

  // ---- Which schemas and messages

  /** What the schema of one message must say about a field for both sides to
      agree on it: type, option and a tag number that `__tags` maps back to it. */
  ghost predicate FieldOk(protos: Json, name: string, proto: Json) {
    && ItemText(proto, "type").Some?
    && ItemText(proto, "option").Some?
    && ItemText(proto, "option").value in {"required", "optional", "repeated"}
    && GetItem(proto, "tag").Some?
    && 1 <= ValueInt(GetItem(proto, "tag").value) < 0x2000_0000
    && GetItem(protos, "__tags").Some?
    && ItemText(GetItem(protos, "__tags").value, Digits(ValueInt(GetItem(proto, "tag").value))) == Some(name)
  }

  /** The schema a field of a message type refers to. */
  function SubSchema(gprotos: Json, protos: Json, t: string): Option<Json> {
    match GetItem(protos, "__messages")
    case None => None
    case Some(messages) => if Unnamed(messages) then None else Resolve(gprotos, messages, t)
  }

  ghost predicate WellTyped(fpu: Fpu, gprotos: Json, protos: Json, msg: Json)
    decreases msg, 0
  {
    && msg.Object?
    && Distinct(msg.members)
    && forall m <- msg.members :: WellTypedMember(fpu, gprotos, protos, m)
  }

  ghost predicate Distinct(ms: seq<Member>) {
    forall i, j :: 0 <= i < j < |ms| ==> ms[i].name != ms[j].name
  }

  ghost predicate WellTypedMember(fpu: Fpu, gprotos: Json, protos: Json, m: Member)
    decreases m, 2
  {
    && GetItem(protos, m.name).Some?
    && var proto := GetItem(protos, m.name).value;
    && FieldOk(protos, m.name, proto)
    && var t := ItemText(proto, "type").value;
    if ItemText(proto, "option").value == "repeated" then
      && m.value.Array?
      && (m.value.items == [] ==> Packed(t))
      && forall v <- m.value.items :: WellTypedValue(fpu, gprotos, protos, t, v)
    else
      WellTypedValue(fpu, gprotos, protos, t, m.value)
  }

  ghost predicate WellTypedValue(fpu: Fpu, gprotos: Json, protos: Json, t: string, v: Json)
    decreases v, 1
  {
    match TypeOf(t)
    case UInt32 => v.Number? && 0 <= v.valueint < INT_LIMIT && v.valuedouble == v.valueint as real
    case Int32 | SInt32 => v.Number? && -INT_LIMIT <= v.valueint < INT_LIMIT && v.valuedouble == v.valueint as real
    case Float =>
      && v.Number? && v == CreateNumber(v.valuedouble) && FitsInt(v.valuedouble)
      && fpu.ofSingle(fpu.single(v.valuedouble)) == Some(v.valuedouble)
    case Double =>
      && v.Number? && v == CreateNumber(v.valuedouble) && FitsInt(v.valuedouble)
      && fpu.ofDouble(fpu.double(v.valuedouble)) == Some(v.valuedouble)
    case Text => v.String? && CText(v.text)
    case Message =>
      && SubSchema(gprotos, protos, t).Some?
      && WellTyped(fpu, gprotos, SubSchema(gprotos, protos, t).value, v)
  }

  // ---- Varints

  lemma Pow2Above64(n: nat)
    requires n >= 64
    ensures Pow2(n) >= U64
    decreases n
  {
    if n == 64 {
      Pow2At63();
    } else {
      Pow2Above64(n - 1);
    }
  }

  /** The stream that has `b` in front of `s`. */
  function Before(b: seq<Byte>, s: In): (r: In)
    requires s.Ok()
    ensures r.Ok() && r.left == |b| + s.left
  {
    In(b + s.rest, |b| + s.left)
  }

  lemma SkipBefore(b: seq<Byte>, s: In)
    requires s.Ok()
    ensures Before(b, s).Skip(|b|) == s && Before(b, s).rest[..|b|] == b
  {}

  lemma BeforeBefore(a: seq<Byte>, b: seq<Byte>, s: In)
    requires s.Ok()
    ensures Before(a + b, s) == Before(a, Before(b, s))
  {
    assert (a + b) + s.rest == a + (b + s.rest);
  }

  /** One seven-bit group of `v`, at weight `p`, and the rest at weight `128 * p`. */
  lemma GroupFits(v: nat, p: nat)
    requires v * p < U64
    ensures (v % 128 * p) % U64 == v % 128 * p
    ensures v / 128 * (128 * p) == v * p - v % 128 * p
    ensures v >= 128 ==> 128 * p < U64
  {
    var q, r := v / 128, v % 128;
    assert v * p == (128 * q + r) * p == 128 * q * p + r * p;
    assert q * (128 * p) == 128 * q * p;
    assert q * p >= 0 && r * p >= 0;
    if v >= 128 {
      assert (q - 1) * p >= 0;
    }
  }

  /** Reading one byte. */
  lemma ByteReads(b: Byte, s: In, bitpos: nat, dest: nat)
    requires s.Ok() && bitpos < 64
    ensures var value := dest + (b % 128 * Pow2(bitpos)) % U64;
            ReadVarint(Before([b], s), bitpos, dest)
            == if b < 128 then VarintResult(true, value, s) else ReadVarint(s, bitpos + 7, value)
  {
    hide Pow2;
    SkipBefore([b], s);
    assert Before([b], s).rest[0] == b;
  }

  lemma {:induction false} VarintReads(v: nat, bitpos: nat, dest: nat, s: In)
    requires s.Ok() && v * Pow2(bitpos) < U64 && bitpos < 64
    ensures ReadVarint(Before(Varint(v), s), bitpos, dest) == VarintResult(true, dest + v * Pow2(bitpos), s)
    decreases v
  {
    hide Pow2, ReadVarint, Before;
    var p := Pow2(bitpos);
    GroupFits(v, p);
    if v < 128 {
      ByteReads(v, s, bitpos, dest);
    } else {
      var b := v % 128 + 128;
      var after := Before(Varint(v / 128), s);
      BeforeBefore([b], Varint(v / 128), s);
      assert b % 128 == v % 128;
      ByteReads(b, after, bitpos, dest);
      Pow2Step7(bitpos);
      if bitpos + 7 >= 64 {
        Pow2Above64(bitpos + 7);
      }
      VarintReads(v / 128, bitpos + 7, dest + v % 128 * p, s);
    }
  }

  /** A 64-bit value comes back from its varint, whatever follows, and of a longer one than 32
      bits its low 32. */
  lemma VarintRoundTrip(v: nat, s: In)
    requires s.Ok() && v < U64
    ensures ReadVarint(Before(Varint(v), s), 0, 0) == VarintResult(true, v, s)
    ensures v < U32 ==> ReadVarint32(Before(Varint(v), s)) == VarintResult(true, v, s)
    ensures ReadVarint32(Before(Varint(v), s)) == VarintResult(true, v % 4294967296, s)
  {
    hide ReadVarint;
    assert v * Pow2(0) == v;
    VarintReads(v, 0, 0, s);
  }

  // ---- One value

  lemma IntegerRoundTrip(i: int)
    requires -INT_LIMIT <= i < INT_LIMIT
    ensures ToU64(ZigZag(i)) < U64 && UnZigZag(ToU64(ZigZag(i))) == i
  {
    ZigZagSmall(i);
    ZigZagInverse(i);
  }

  lemma TextScalarRoundTrip(fpu: Fpu, text: string, key: Option<string>, result: Json, s: In)
    requires s.Ok() && CText(text) && |text| < INT_LIMIT
    ensures DecodeScalar(fpu, Text, key, Before(Varint(|text|) + ToBytes(text), s), result)
         == Attach(result, key, String(text), s)
  {
    hide DecodeText, ToBytes, FromBytes, Attach;
    ToBytesLength(text);
    TextDecodes(ToBytes(text), key, result, s);
    TextRoundTrip(text);
  }

  lemma ToBytesLength(text: string)
    ensures |ToBytes(text)| == |text|
  {
  }

  lemma TextDecodes(b: seq<Byte>, key: Option<string>, result: Json, s: In)
    requires s.Ok() && |b| < WRAPPING_LENGTH
    ensures DecodeText(key, Before(Varint(|b|) + b, s), result) == Attach(result, key, String(FromBytes(b)), s)
  {
    hide ReadVarint32, FromBytes, Attach, Varint, Before, In.Skip;
    BeforeBefore(Varint(|b|), b, s);
    LengthReads(|b|, Before(b, s));
    SkipBefore(b, s);
  }

  lemma LengthReads(v: nat, s: In)
    requires v < U32 && s.Ok()
    ensures ReadVarint32(Before(Varint(v), s)) == VarintResult(true, v, s)
  {
    hide ReadVarint32, Varint;
    VarintRoundTrip(v, s);
  }

  lemma ScalarRoundTrip(fpu: Fpu, gprotos: Json, protos: Json, proto: Json, v: Json, key: Option<string>,
                        result: Json, s: In)
    requires s.Ok() && ItemText(proto, "type").Some?
    requires var t := ItemText(proto, "type").value;
             TypeOf(t) != Message && WellTypedValue(fpu, gprotos, protos, t, v)
    requires EncodeProto(fpu, gprotos, protos, proto, v).Done?
    ensures DecodeScalar(fpu, TypeOf(ItemText(proto, "type").value), key,
                         Before(EncodeProto(fpu, gprotos, protos, proto, v).bytes, s), result)
         == Attach(result, key, v, s)
  {
    hide ReadVarint, ReadVarint32, Attach, CreateNumber;
    var t := ItemText(proto, "type").value;
    match TypeOf(t)
    case UInt32 =>
      CreateNumberOfInt(v.valueint);
      VarintRoundTrip(v.valueint, s);
    case Int32 | SInt32 =>
      CreateNumberOfInt(v.valueint);
      IntegerRoundTrip(v.valueint);
      VarintRoundTrip(ToU64(ZigZag(v.valueint)), s);
    case Float =>
      SkipBefore(fpu.single(v.valuedouble), s);
    case Double =>
      SkipBefore(fpu.double(v.valuedouble), s);
    case Text =>
      TextScalarRoundTrip(fpu, v.text, key, result, s);
  }

  /** Where a decoded value goes: a message read without a key is the result itself. */
  function Landed(t: string, key: Option<string>, result: Json, v: Json, s: In): Dec {
    if TypeOf(t) == Message && key.None? then Got(v, s) else Attach(result, key, v, s)
  }

  // ---- The four mutually recursive walks

  lemma {:induction false} ValueRoundTrip(fpu: Fpu, gprotos: Json, protos: Json, proto: Json, v: Json,
                                          key: Option<string>, result: Json, s: In)
    requires s.Ok() && ItemText(proto, "type").Some?
    requires WellTypedValue(fpu, gprotos, protos, ItemText(proto, "type").value, v)
    requires EncodeProto(fpu, gprotos, protos, proto, v).Done?
    requires |EncodeProto(fpu, gprotos, protos, proto, v).bytes| < U32
    requires key.None? ==> result == Object([])
    ensures DecodeProto(fpu, gprotos, proto, protos, key,
                        Before(EncodeProto(fpu, gprotos, protos, proto, v).bytes, s), result)
         == Landed(ItemText(proto, "type").value, key, result, v, s)
    decreases v, 1
  {
    hide DecodeScalar, DecodeSubmessage, EncodeMsg;
    var t := ItemText(proto, "type").value;
    if TypeOf(t) != Message {
      ScalarRoundTrip(fpu, gprotos, protos, proto, v, key, result, s);
    } else {
      SubmessageRoundTrip(fpu, gprotos, SubSchema(gprotos, protos, t).value, v, s);
    }
  }

  /** The bytes of a message behind their length are read in a substream. */
  lemma PrefixedDecodes(fpu: Fpu, gprotos: Json, sub: Json, b: seq<Byte>, v: Json, s: In)
    requires s.Ok() && |b| < U32
    requires DecodeMsg(fpu, gprotos, sub, Before(b, In(s.rest, 0)), Object([])) == Got(v, In(s.rest, 0))
    ensures DecodeSubmessage(fpu, gprotos, sub, Before(Varint(|b|) + b, s), Object([])) == Got(v, s)
  {
    hide ReadVarint32, DecodeMsg, Varint;
    BeforeBefore(Varint(|b|), b, s);
    VarintRoundTrip(|b|, Before(b, s));
  }

  lemma {:induction false} SubmessageRoundTrip(fpu: Fpu, gprotos: Json, sub: Json, v: Json, s: In)
    requires s.Ok() && WellTyped(fpu, gprotos, sub, v)
    requires LengthPrefixed(EncodeMsg(fpu, gprotos, sub, v)).Done?
    requires |LengthPrefixed(EncodeMsg(fpu, gprotos, sub, v)).bytes| < U32
    ensures DecodeSubmessage(fpu, gprotos, sub, Before(LengthPrefixed(EncodeMsg(fpu, gprotos, sub, v)).bytes, s),
                             Object([]))
         == Got(v, s)
    decreases v, 0
  {
    hide DecodeSubmessage, DecodeMsg, EncodeMembers, WellTypedMember, Varint;
    var b := EncodeMembers(fpu, gprotos, sub, v.members).bytes;
    assert [] + v.members == v.members;
    MembersRoundTrip(fpu, gprotos, sub, [], v.members, In(s.rest, 0));
    PrefixedDecodes(fpu, gprotos, sub, b, v, s);
  }

  lemma {:induction false} MembersRoundTrip(fpu: Fpu, gprotos: Json, protos: Json, done: seq<Member>, ms: seq<Member>,
                                            s: In)
    requires s.Ok() && s.left == 0
    requires forall m <- ms :: WellTypedMember(fpu, gprotos, protos, m)
    requires Distinct(done + ms)
    requires EncodeMembers(fpu, gprotos, protos, ms).Done?
    requires |EncodeMembers(fpu, gprotos, protos, ms).bytes| < U32
    ensures DecodeMsg(fpu, gprotos, protos, Before(EncodeMembers(fpu, gprotos, protos, ms).bytes, s), Object(done))
         == Got(Object(done + ms), s)
    decreases ms
  {
    hide EncodeMember, WellTypedMember;
    if ms == [] {
      assert done + ms == done;
      assert Before([], s) == s;
    } else {
      var a := EncodeMember(fpu, gprotos, protos, ms[0]).bytes;
      var b := EncodeMembers(fpu, gprotos, protos, ms[1..]).bytes;
      BeforeBefore(a, b, s);
      assert forall i :: 0 <= i < |done| ==> (done + ms)[i] == done[i];
      assert (done + ms)[|done|] == ms[0];
      MemberRoundTrip(fpu, gprotos, protos, done, ms[0], Before(b, s));
      assert done + [ms[0]] + ms[1..] == done + ms;
      MembersRoundTrip(fpu, gprotos, protos, done + [ms[0]], ms[1..], s);
    }
  }

  lemma {:induction false} MemberRoundTrip(fpu: Fpu, gprotos: Json, protos: Json, done: seq<Member>, m: Member, s: In)
    requires s.Ok()
    requires WellTypedMember(fpu, gprotos, protos, m)
    requires forall x <- done :: x.name != m.name
    requires EncodeMember(fpu, gprotos, protos, m).Done?
    requires |EncodeMember(fpu, gprotos, protos, m).bytes| < U32
    ensures DecodeMsg(fpu, gprotos, protos, Before(EncodeMember(fpu, gprotos, protos, m).bytes, s), Object(done))
         == DecodeMsg(fpu, gprotos, protos, s, Object(done + [m]))
    decreases m
  {
    hide DecodeMsg, DecodeProto, EncodeProto, EncodeTag, EncodeArray, FieldOk, WellTypedValue;
    var proto := GetItem(protos, m.name).value;
    var option := ItemText(proto, "option").value;
    OptionOk(protos, m.name, proto);
    if option == "repeated" {
      RepeatedRoundTrip(fpu, gprotos, protos, done, m.name, proto, m.value.items, s);
    } else {
      var tag := EncodeTag(proto).bytes;
      var b := EncodeProto(fpu, gprotos, protos, proto, m.value).bytes;
      BeforeBefore(tag, b, s);
      TagStep(fpu, gprotos, protos, m.name, proto, Before(b, s), Object(done));
      ValueRoundTrip(fpu, gprotos, protos, proto, m.value, Some(m.name), Object(done), s);
    }
  }

  lemma OptionOk(protos: Json, name: string, proto: Json)
    requires FieldOk(protos, name, proto)
    ensures ItemText(proto, "type").Some? && ItemText(proto, "option").Some?
    ensures ItemText(proto, "option").value != "repeated" ==>
              ItemText(proto, "option").value == "required" || ItemText(proto, "option").value == "optional"
  {}

  /** After its tag, a field is decoded under its own name. */
  lemma TagStep(fpu: Fpu, gprotos: Json, protos: Json, name: string, proto: Json, s: In, result: Json)
    requires s.Ok() && FieldOk(protos, name, proto) && GetItem(protos, name) == Some(proto)
    ensures EncodeTag(proto).Done?
    ensures DecodeMsg(fpu, gprotos, protos, Before(EncodeTag(proto).bytes, s), result) ==
            var d := if ItemText(proto, "option").value == "repeated"
                     then DecodeArray(fpu, gprotos, proto, protos, name, s, result)
                     else DecodeProto(fpu, gprotos, proto, protos, Some(name), s, result);
            if d.Got? then DecodeMsg(fpu, gprotos, protos, d.s, d.json) else d
  {
    hide ReadVarint32, DecodeArray, DecodeProto, Find, Digits, WireType;
    var number := ValueInt(GetItem(proto, "tag").value);
    var tag := Tag(number, WireType(ItemText(proto, "type").value));
    assert 0 < tag < U32 && tag / 8 == number;
    VarintRoundTrip(tag, s);
  }

  lemma {:induction false} RepeatedRoundTrip(fpu: Fpu, gprotos: Json, protos: Json, done: seq<Member>, name: string,
                                             proto: Json, items: seq<Json>, s: In)
    requires s.Ok() && FieldOk(protos, name, proto) && GetItem(protos, name) == Some(proto)
    requires ItemText(proto, "option").value == "repeated"
    requires items == [] ==> Packed(ItemText(proto, "type").value)
    requires forall v <- items :: WellTypedValue(fpu, gprotos, protos, ItemText(proto, "type").value, v)
    requires forall x <- done :: x.name != name
    requires EncodeArray(fpu, gprotos, protos, proto, items).Done?
    requires |EncodeArray(fpu, gprotos, protos, proto, items).bytes| < U32
    ensures DecodeMsg(fpu, gprotos, protos, Before(EncodeArray(fpu, gprotos, protos, proto, items).bytes, s),
                      Object(done))
         == DecodeMsg(fpu, gprotos, protos, s, Object(done + [Member(name, Array(items))]))
    decreases items, 3
  {
    hide DecodeMsg, EncodeItems, EncodeTag, DecodeArray, FieldOk, WellTypedValue, TypeOf, Packed;
    var t := ItemText(proto, "type").value;
    if Packed(t) {
      var tag := EncodeTag(proto).bytes;
      var count := Varint(|items|);
      var b := EncodeItems(fpu, gprotos, protos, proto, items, false).bytes;
      BeforeBefore(tag + count, b, s);
      BeforeBefore(tag, count, Before(b, s));
      TagStep(fpu, gprotos, protos, name, proto, Before(count, Before(b, s)), Object(done));
      PackedRoundTrip(fpu, gprotos, protos, done, name, proto, items, s);
    } else {
      TaggedRoundTrip(fpu, gprotos, protos, done, name, proto, [], items, s);
      assert [] + items == items;
    }
  }

  /** The members of a result whose list for `name` holds `acc` so far; the list
      comes into being with its first item. */
  function Holding(done: seq<Member>, name: string, acc: seq<Json>): seq<Member> {
    if acc == [] then done else done + [Member(name, Array(acc))]
  }

  /** One occurrence of a repeated field extends the list of that name. */
  lemma ArrayStep(fpu: Fpu, gprotos: Json, proto: Json, protos: Json, done: seq<Member>, name: string, acc: seq<Json>,
                  s: In)
    requires s.Ok() && ItemText(proto, "type").Some?
    requires forall x <- done :: x.name != name
    ensures DecodeArray(fpu, gprotos, proto, protos, name, s, Object(Holding(done, name, acc))) ==
            var d := DecodeElements(fpu, gprotos, proto, protos, ItemText(proto, "type").value, name, s, Array(acc));
            if d.Got? then Got(Object(done + [Member(name, d.json)]), d.s) else d
  {
    hide DecodeElements;
    if acc != [] {
      FindAppend(done, Member(name, Array(acc)));
    }
  }

  lemma {:induction false} PackedRoundTrip(fpu: Fpu, gprotos: Json, protos: Json, done: seq<Member>, name: string,
                                           proto: Json, items: seq<Json>, s: In)
    requires s.Ok() && ItemText(proto, "type").Some? && Packed(ItemText(proto, "type").value)
    requires forall v <- items :: WellTypedValue(fpu, gprotos, protos, ItemText(proto, "type").value, v)
    requires forall x <- done :: x.name != name
    requires |items| < INT_LIMIT && EncodeItems(fpu, gprotos, protos, proto, items, false).Done?
    requires |EncodeItems(fpu, gprotos, protos, proto, items, false).bytes| < U32
    ensures DecodeArray(fpu, gprotos, proto, protos, name,
                        Before(Varint(|items|),
                               Before(EncodeItems(fpu, gprotos, protos, proto, items, false).bytes, s)), Object(done))
         == Got(Object(done + [Member(name, Array(items))]), s)
    decreases items, 2
  {
    hide ReadVarint32, DecodeItems, EncodeItems, DecodeArray, TypeOf, Packed, WellTypedValue;
    var body := Before(EncodeItems(fpu, gprotos, protos, proto, items, false).bytes, s);
    ArrayStep(fpu, gprotos, proto, protos, done, name, [], Before(Varint(|items|), body));
    VarintRoundTrip(|items|, body);
    ItemsRoundTrip(fpu, gprotos, protos, name, proto, [], items, s);
    assert [] + items == items;
  }

  lemma {:induction false} ItemsRoundTrip(fpu: Fpu, gprotos: Json, protos: Json, name: string, proto: Json,
                                          acc: seq<Json>, items: seq<Json>, s: In)
    requires s.Ok() && ItemText(proto, "type").Some? && Packed(ItemText(proto, "type").value)
    requires forall v <- items :: WellTypedValue(fpu, gprotos, protos, ItemText(proto, "type").value, v)
    requires EncodeItems(fpu, gprotos, protos, proto, items, false).Done?
    requires |EncodeItems(fpu, gprotos, protos, proto, items, false).bytes| < U32
    ensures DecodeItems(fpu, gprotos, proto, protos, name, |items|,
                        Before(EncodeItems(fpu, gprotos, protos, proto, items, false).bytes, s), Array(acc))
         == Got(Array(acc + items), s)
    decreases items, 1
  {
    hide DecodeProto, EncodeProto, WellTypedValue;
    if items == [] {
      assert Before([], s) == s;
      assert acc + items == acc;
    } else {
      var a := EncodeProto(fpu, gprotos, protos, proto, items[0]).bytes;
      var b := EncodeItems(fpu, gprotos, protos, proto, items[1..], false).bytes;
      BeforeBefore(a, b, s);
      ValueRoundTrip(fpu, gprotos, protos, proto, items[0], Some(name), Array(acc), Before(b, s));
      ItemsRoundTrip(fpu, gprotos, protos, name, proto, acc + [items[0]], items[1..], s);
      assert acc + [items[0]] + items[1..] == acc + items;
    }
  }

  lemma {:induction false} TaggedRoundTrip(fpu: Fpu, gprotos: Json, protos: Json, done: seq<Member>, name: string,
                                           proto: Json, acc: seq<Json>, items: seq<Json>, s: In)
    requires s.Ok() && FieldOk(protos, name, proto) && GetItem(protos, name) == Some(proto)
    requires ItemText(proto, "option").value == "repeated" && !Packed(ItemText(proto, "type").value)
    requires forall v <- items :: WellTypedValue(fpu, gprotos, protos, ItemText(proto, "type").value, v)
    requires forall x <- done :: x.name != name
    requires EncodeItems(fpu, gprotos, protos, proto, items, true).Done?
    requires |EncodeItems(fpu, gprotos, protos, proto, items, true).bytes| < U32
    ensures DecodeMsg(fpu, gprotos, protos, Before(EncodeItems(fpu, gprotos, protos, proto, items, true).bytes, s),
                      Object(Holding(done, name, acc)))
         == DecodeMsg(fpu, gprotos, protos, s, Object(Holding(done, name, acc + items)))
    decreases items, 2
  {
    hide DecodeMsg, EncodeProto, EncodeTag, DecodeArray, DecodeElements, FieldOk, WellTypedValue, TypeOf, Packed;
    if items == [] {
      assert Before([], s) == s;
      assert acc + items == acc;
    } else {
      var tag := EncodeTag(proto).bytes;
      var a := EncodeProto(fpu, gprotos, protos, proto, items[0]).bytes;
      var b := EncodeItems(fpu, gprotos, protos, proto, items[1..], true).bytes;
      var after := Before(b, s);
      OptionOk(protos, name, proto);
      BeforeBefore(tag + a, b, s);
      BeforeBefore(tag, a, after);
      TagStep(fpu, gprotos, protos, name, proto, Before(a, after), Object(Holding(done, name, acc)));
      ArrayStep(fpu, gprotos, proto, protos, done, name, acc, Before(a, after));
      ElementRoundTrip(fpu, gprotos, protos, name, proto, acc, items[0], after);
      TaggedRoundTrip(fpu, gprotos, protos, done, name, proto, acc + [items[0]], items[1..], s);
      assert acc + [items[0]] + items[1..] == acc + items;
    }
  }

  lemma {:induction false} ElementRoundTrip(fpu: Fpu, gprotos: Json, protos: Json, name: string, proto: Json,
                                            acc: seq<Json>, v: Json, s: In)
    requires s.Ok() && ItemText(proto, "type").Some? && !Packed(ItemText(proto, "type").value)
    requires WellTypedValue(fpu, gprotos, protos, ItemText(proto, "type").value, v)
    requires EncodeProto(fpu, gprotos, protos, proto, v).Done?
    requires |EncodeProto(fpu, gprotos, protos, proto, v).bytes| < U32
    ensures DecodeElements(fpu, gprotos, proto, protos, ItemText(proto, "type").value, name,
                           Before(EncodeProto(fpu, gprotos, protos, proto, v).bytes, s), Array(acc))
         == Got(Array(acc + [v]), s)
    decreases v, 2
  {
    hide DecodeProto, EncodeProto, WellTypedValue;
    if TypeOf(ItemText(proto, "type").value) == Text {
      ValueRoundTrip(fpu, gprotos, protos, proto, v, Some(name), Array(acc), s);
    } else {
      ValueRoundTrip(fpu, gprotos, protos, proto, v, None, Object([]), s);
    }
  }

  // ---- Main results

  /** A well-typed message that encodes to less than 2^32 bytes is decoded back to
      itself, and the decoder consumes exactly those bytes, whatever lies behind
      them in the buffer. */
  lemma RoundTrip(fpu: Fpu, gprotos: Json, protos: Json, msg: Json, behind: seq<Byte>)
    requires WellTyped(fpu, gprotos, protos, msg)
    requires EncodeMsg(fpu, gprotos, protos, msg).Done?
    requires |EncodeMsg(fpu, gprotos, protos, msg).bytes| < U32
    ensures var b := EncodeMsg(fpu, gprotos, protos, msg).bytes;
            DecodeMsg(fpu, gprotos, protos, In(b + behind, |b|), Object([])) == Got(msg, In(behind, 0))
  {
    hide DecodeMsg, EncodeMembers;
    MembersRoundTrip(fpu, gprotos, protos, [], msg.members, In(behind, 0));
    assert [] + msg.members == msg.members;
  }

  /** Encoding a well-typed message is never refused; only a length that does not
      fit its C type can stop it. */
  lemma {:induction false} NeverRefused(fpu: Fpu, gprotos: Json, protos: Json, msg: Json)
    requires WellTyped(fpu, gprotos, protos, msg)
    ensures EncodeMsg(fpu, gprotos, protos, msg) != Refused
    decreases msg, 0
  {
    MembersNotRefused(fpu, gprotos, protos, msg.members);
  }

  lemma {:induction false} MembersNotRefused(fpu: Fpu, gprotos: Json, protos: Json, ms: seq<Member>)
    requires forall m <- ms :: WellTypedMember(fpu, gprotos, protos, m)
    ensures EncodeMembers(fpu, gprotos, protos, ms) != Refused
    decreases ms, 3
  {
    hide EncodeMember, WellTypedMember;
    if ms != [] {
      assert ms[0] in ms;
      MemberNotRefused(fpu, gprotos, protos, ms[0]);
      MembersNotRefused(fpu, gprotos, protos, ms[1..]);
    }
  }

  lemma {:induction false} MemberNotRefused(fpu: Fpu, gprotos: Json, protos: Json, m: Member)
    requires WellTypedMember(fpu, gprotos, protos, m)
    ensures EncodeMember(fpu, gprotos, protos, m) != Refused
    decreases m, 5
  {
    hide EncodeProto, EncodeItems, EncodeTag, WellTypedValue;
    var proto := GetItem(protos, m.name).value;
    OptionOk(protos, m.name, proto);
    TagNotRefused(proto);
    if ItemText(proto, "option").value == "repeated" {
      ItemsNotRefused(fpu, gprotos, protos, proto, m.value.items, true);
      ItemsNotRefused(fpu, gprotos, protos, proto, m.value.items, false);
      assert EncodeArray(fpu, gprotos, protos, proto, m.value.items) != Refused;
    } else {
      ValueNotRefused(fpu, gprotos, protos, proto, m.value);
    }
  }

  lemma TagNotRefused(proto: Json)
    ensures EncodeTag(proto) != Refused
  {}

  lemma {:induction false} ItemsNotRefused(fpu: Fpu, gprotos: Json, protos: Json, proto: Json, items: seq<Json>,
                                           tagged: bool)
    requires ItemText(proto, "type").Some?
    requires forall v <- items :: WellTypedValue(fpu, gprotos, protos, ItemText(proto, "type").value, v)
    ensures EncodeItems(fpu, gprotos, protos, proto, items, tagged) != Refused
    decreases items, 2
  {
    hide EncodeProto, EncodeTag, WellTypedValue;
    if items != [] {
      TagNotRefused(proto);
      ValueNotRefused(fpu, gprotos, protos, proto, items[0]);
      ItemsNotRefused(fpu, gprotos, protos, proto, items[1..], tagged);
    }
  }

  lemma {:induction false} ValueNotRefused(fpu: Fpu, gprotos: Json, protos: Json, proto: Json, v: Json)
    requires ItemText(proto, "type").Some?
    requires WellTypedValue(fpu, gprotos, protos, ItemText(proto, "type").value, v)
    ensures EncodeProto(fpu, gprotos, protos, proto, v) != Refused
    decreases v, 1
  {
    hide EncodeMsg;
    var t := ItemText(proto, "type").value;
    if TypeOf(t) == Message {
      NeverRefused(fpu, gprotos, SubSchema(gprotos, protos, t).value, v);
    }
  }

  /** A uInt32 field carries a C int: it survives exactly when it is not negative,
      because a negative one is widened to 64 bits with its sign. */
  lemma UnsignedRoundTripsIff(fpu: Fpu, i: int, ms: seq<Member>, key: string, s: In)
    requires s.Ok() && -INT_LIMIT <= i < INT_LIMIT
    ensures DecodeScalar(fpu, UInt32, Some(key), Before(Varint(ToU64(i)), s), Object(ms))
         == if i >= 0 then Got(Object(ms + [Member(key, Number(i, i as real))]), s) else Wild
  {
    hide ReadVarint;
    VarintRoundTrip(ToU64(i), s);
    CreateNumberOfInt(ToU64(i));
  }

  /** What -1 was written as cannot be read: its conversion to int is undefined. */
  lemma MinusOneFails(fpu: Fpu, ms: seq<Member>, key: string, s: In)
    requires s.Ok()
    ensures DecodeScalar(fpu, UInt32, Some(key), Before(Varint(ToU64(-1)), s), Object(ms)) == Wild
  {
    UnsignedRoundTripsIff(fpu, -1, ms, key, s);
  }

  /** A list leaves no trace in the bytes exactly when it is empty and not packed;
      such a member is missing from the decoded message. */
  lemma EmptyListIsDroppedIff(fpu: Fpu, gprotos: Json, protos: Json, proto: Json, items: seq<Json>)
    requires ItemText(proto, "type").Some?
    requires EncodeArray(fpu, gprotos, protos, proto, items).Done?
    ensures EncodeArray(fpu, gprotos, protos, proto, items).bytes == []
       <==> items == [] && !Packed(ItemText(proto, "type").value)
  {
    hide EncodeProto;
    if items != [] && !Packed(ItemText(proto, "type").value) {
      var first := EncodeItem(fpu, gprotos, protos, proto, items[0], true);
      assert first.Done? && EncodeTag(proto).Done? && |first.bytes| >= |EncodeTag(proto).bytes|;
    }
  }

  /** A message whose only member is an empty list of strings comes back without it. */
  lemma EmptyListFails(fpu: Fpu)
    ensures var names := Object([Member("option", String("repeated")), Member("type", String("string")),
                                 Member("tag", Number(1, 1.0))]);
            var schema := Object([Member("names", names)]);
            && EncodeMsg(fpu, Object([]), schema, Object([Member("names", Array([]))])) == Done([])
            && DecodeMsg(fpu, Object([]), schema, In([], 0), Object([])) == Got(Object([]), In([], 0))
  {
    hide EncodeMember;
    var names := Object([Member("option", String("repeated")), Member("type", String("string")),
                         Member("tag", Number(1, 1.0))]);
    var schema := Object([Member("names", names)]);
    EmptyListEncodes(fpu, schema, Member("names", Array([])), names);
  }

  lemma EmptyListEncodes(fpu: Fpu, schema: Json, m: Member, proto: Json)
    requires GetItem(schema, m.name) == Some(proto) && m.value == Array([])
    requires ItemText(proto, "option") == Some("repeated") && ItemText(proto, "type") == Some("string")
    ensures EncodeMember(fpu, Object([]), schema, m) == Done([])
  {
    hide Find;
  }
}
