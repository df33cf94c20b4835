/** Is twice the room of the JSON text enough for the protobuf encoding?  For which
    schemas it always is, and for which it is not. */
module PbSize {
  import opened Basics
  import opened JsonText
  import opened JsonTree
  import opened PbEncodeSpec
  import opened PbRoundTrip
  import opened Words

  /** The C library writes at least one character for a double. */
  ghost predicate Writes(dt: DoubleText) {
    forall d: real :: dt(d) != ""
  }

  ghost predicate Repeated(proto: Json) {
    ItemText(proto, "option") == Some("repeated")
  }

  ghost predicate IsDouble(proto: Json) {
    ItemText(proto, "type").Some? && TypeOf(ItemText(proto, "type").value) == Double
  }

  /** A bound on the bytes of a field's header. */
  type Head = n: nat | 2 <= n <= 3 witness 2

  /** A field whose header takes at most `head` bytes.  A double has a name, and so has a
      list when headers take three bytes. */
  ghost predicate Compact(head: Head, name: string, proto: Json) {
    && EncodeTag(proto).Done? && |EncodeTag(proto).bytes| <= head
    && (IsDouble(proto) || (head == 3 && Repeated(proto)) ==> name != "") && |StringText(name)| < 0x1000_0000
  }

  ghost predicate CompactSchema(head: Head, gprotos: Json, schemas: set<Json>, protos: Json) {
    forall name :: GetItem(protos, name).Some? && FieldOk(protos, name, GetItem(protos, name).value) ==>
      FieldIn(head, gprotos, schemas, protos, name, GetItem(protos, name).value)
  }

  ghost predicate FieldIn(head: Head, gprotos: Json, schemas: set<Json>, protos: Json, name: string, proto: Json)
    requires FieldOk(protos, name, proto)
  {
    && Compact(head, name, proto)
    && var t := ItemText(proto, "type").value;
    (TypeOf(t) == Message && SubSchema(gprotos, protos, t).Some? ==> SubSchema(gprotos, protos, t).value in schemas)
  }

  /** Schemas of compact fields, with those of all message types they refer to.  Headers
      take up to two bytes for tag numbers below 2048, and up to three below 2^18. */
  ghost predicate CompactSchemas(head: Head, gprotos: Json, schemas: set<Json>) {
    forall protos <- schemas :: CompactSchema(head, gprotos, schemas, protos)
  }

  /** Some schema has a repeated field of doubles. */
  ghost predicate HasRepeatedDouble(schemas: set<Json>) {
    exists protos <- schemas, name: string :: RepeatsDouble(protos, name)
  }

  ghost predicate RepeatsDouble(protos: Json, name: string) {
    && GetItem(protos, name).Some? && FieldOk(protos, name, GetItem(protos, name).value)
    && IsDouble(GetItem(protos, name).value) && Repeated(GetItem(protos, name).value)
  }

  // ---- Lengths

  lemma ShortVarint(v: nat)
    ensures v < 0x80 ==> |Varint(v)| == 1
    ensures v < 0x4000 ==> |Varint(v)| <= 2
    ensures v < 0x20_0000 ==> |Varint(v)| <= 3
    ensures v < 0x8_0000_0000 ==> |Varint(v)| <= 5
  {
    assert Pow2(0) == 1;
    Pow2Step7(0);
    Pow2Step7(7);
    Pow2Step7(14);
    Pow2Step7(21);
    Pow2Step7(28);
    if v < 0x4000 {
      VarintLength(v, 2);
    }
    if v < 0x20_0000 {
      VarintLength(v, 3);
    }
    if v < 0x8_0000_0000 {
      VarintLength(v, 5);
    }
  }

  /** What headers take: two bytes below 2048, three below 2^18. */
  lemma HeaderLength(proto: Json, tag: nat)
    requires ItemText(proto, "type").Some? && GetItem(proto, "tag") == Some(Number(tag, tag as real))
    ensures EncodeTag(proto).Done?
    ensures tag < 0x800 ==> |EncodeTag(proto).bytes| <= 2
    ensures tag < 0x4_0000 ==> |EncodeTag(proto).bytes| <= 3
  {
    hide Find, Varint;
    ShortVarint(Tag(tag, WireType(ItemText(proto, "type").value)));
  }

  lemma {:induction false} EscapedLength(s: string)
    ensures |Escaped(s)| >= |s| && |StringText(s)| >= |s| + 2
  {
    if s != "" {
      EscapedLength(s[1..]);
      assert |EscapeChar(s[0])| >= 1;
    }
  }

  lemma DecimalLength(i: int)
    ensures |Decimal(i)| >= 1 && (|Decimal(i)| == 1 ==> 0 <= i < 10)
  {
    if i >= 10 {
      assert |Digits(i)| == |Digits(i / 10)| + 1;
    }
  }

  lemma IntText(v: Json, depth: nat, dt: DoubleText)
    requires v.Number? && v.valuedouble == v.valueint as real && -INT_LIMIT <= v.valueint < INT_LIMIT
    ensures ValueText(v, depth, false, dt) == Decimal(v.valueint)
  {
    assert v.valueint as real - v.valuedouble == 0.0;
  }

  // ---- The bytes of a value against its text

  /** How many bytes a value may take for its text. */
  ghost predicate Roomy(head: Head, t: FieldType, e: nat, x: nat) {
    && x >= 1
    && match t
       case Double => e == 8
       case Text | Message => head + e <= 2 * x + 2
       case _ => e <= 2 * x + 2 && e <= 10
  }

  /** How many bytes a message may take for its text: with header and length it takes at
      most twice the text and a comma. */
  ghost predicate RoomyMessage(head: Head, b: nat, j: nat) {
    head + |Varint(b)| + b <= 2 * j + 2
  }

  lemma NumberRoom(head: Head, fpu: Fpu, gprotos: Json, protos: Json, proto: Json, v: Json, depth: nat, dt: DoubleText)
    requires Writes(dt) && ItemText(proto, "type").Some? && Packed(ItemText(proto, "type").value)
    requires WellTypedValue(fpu, gprotos, protos, ItemText(proto, "type").value, v)
    requires EncodeProto(fpu, gprotos, protos, proto, v).Done?
    ensures Roomy(head, TypeOf(ItemText(proto, "type").value), |EncodeProto(fpu, gprotos, protos, proto, v).bytes|,
                  |ValueText(v, depth, false, dt)|)
  {
    hide Varint, Decimal, Digits;
    DecimalLength(v.valueint);
    match TypeOf(ItemText(proto, "type").value)
    case UInt32 =>
      IntText(v, depth, dt);
      ShortVarint(v.valueint);
    case Int32 | SInt32 =>
      IntText(v, depth, dt);
      ZigZagSmall(v.valueint);
      ShortVarint(ZigZag(v.valueint));
    case _ =>
  }

  lemma TextRoom(head: Head, fpu: Fpu, gprotos: Json, protos: Json, proto: Json, v: Json, depth: nat, dt: DoubleText)
    requires v.String? && ItemText(proto, "type").Some? && TypeOf(ItemText(proto, "type").value) == Text
    requires EncodeProto(fpu, gprotos, protos, proto, v).Done?
    ensures Roomy(head, Text, |EncodeProto(fpu, gprotos, protos, proto, v).bytes|, |ValueText(v, depth, false, dt)|)
  {
    hide Varint, Escaped;
    EscapedLength(v.text);
    ShortVarint(|v.text|);
  }

  lemma MessageRoom(head: Head, b: nat, j: nat)
    requires RoomyMessage(head, b, j) && b < U32
    ensures Roomy(head, Message, |Varint(b)| + b, j)
  {
    hide Varint;
    ShortVarint(b);
  }

  lemma {:induction false} ValueRoom(head: Head, fpu: Fpu, gprotos: Json, schemas: set<Json>, protos: Json,
                                     proto: Json, v: Json, depth: nat, dt: DoubleText)
    requires Writes(dt) && CompactSchemas(head, gprotos, schemas)
    requires !HasRepeatedDouble(schemas) && ItemText(proto, "type").Some?
    requires var t := ItemText(proto, "type").value;
             && WellTypedValue(fpu, gprotos, protos, t, v)
             && (TypeOf(t) == Message ==>
                 SubSchema(gprotos, protos, t).Some? && SubSchema(gprotos, protos, t).value in schemas)
    requires EncodeProto(fpu, gprotos, protos, proto, v).Done?
    requires |EncodeProto(fpu, gprotos, protos, proto, v).bytes| < U32
    ensures Roomy(head, TypeOf(ItemText(proto, "type").value), |EncodeProto(fpu, gprotos, protos, proto, v).bytes|,
                  |ValueText(v, depth, false, dt)|)
    decreases v, 1
  {
    hide CompactSchemas, HasRepeatedDouble, EncodeMsg, WellTyped, ValueText, Roomy, Writes;
    var t := ItemText(proto, "type").value;
    match TypeOf(t)
    case Text => TextRoom(head, fpu, gprotos, protos, proto, v, depth, dt);
    case Message =>
      var sub := SubSchema(gprotos, protos, t).value;
      MessageFits(head, fpu, gprotos, schemas, sub, v, depth, dt);
      MessageRoom(head, |EncodeMsg(fpu, gprotos, sub, v).bytes|, |ValueText(v, depth, false, dt)|);
    case _ => NumberRoom(head, fpu, gprotos, protos, proto, v, depth, dt);
  }

  /** For schemas of compact fields without repeated doubles, the encoding of every
      well-typed message is shorter than twice its text. */
  lemma {:induction false} MessageFits(head: Head, fpu: Fpu, gprotos: Json, schemas: set<Json>, protos: Json, msg: Json,
                                       depth: nat, dt: DoubleText)
    requires Writes(dt) && CompactSchemas(head, gprotos, schemas) && !HasRepeatedDouble(schemas) && protos in schemas
    requires WellTyped(fpu, gprotos, protos, msg)
    requires EncodeMsg(fpu, gprotos, protos, msg).Done? && |EncodeMsg(fpu, gprotos, protos, msg).bytes| < U32
    ensures RoomyMessage(head, |EncodeMsg(fpu, gprotos, protos, msg).bytes|, |ValueText(msg, depth, false, dt)|)
    decreases msg, 0
  {
    hide Varint, CompactSchemas, HasRepeatedDouble, EncodeMembers, MembersText, WellTypedMember, Writes;
    if msg.members != [] {
      MembersRoom(head, fpu, gprotos, schemas, protos, msg.members, depth + 1, dt);
      BracesRoom(head, |EncodeMsg(fpu, gprotos, protos, msg).bytes|, |ValueText(msg, depth, false, dt)| - 2);
    } else {
      NoMembers(fpu, gprotos, protos);
      ShortVarint(0);
    }
  }

  lemma NoMembers(fpu: Fpu, gprotos: Json, protos: Json)
    ensures EncodeMembers(fpu, gprotos, protos, []) == Enc.Done([])
  {
  }

  /** The bytes of members against their text, a comma or brace counted for each: enough
      to spare for a header and a length, or so little of both that the length is short. */
  ghost predicate RoomyMembers(head: Head, b: nat, c: nat) {
    var spare := 2 * (c + 1) - b;
    spare > head || (spare >= 1 && b <= 11 * spare)
  }

  /** Members with room make a message with room. */
  lemma BracesRoom(head: Head, b: nat, c: nat)
    requires b < U32 && RoomyMembers(head, b, c)
    ensures RoomyMessage(head, b, c + 2)
  {
    hide Varint;
    ShortVarint(b);
  }

  lemma {:induction false} MembersRoom(head: Head, fpu: Fpu, gprotos: Json, schemas: set<Json>, protos: Json,
                                       ms: seq<Member>, depth: nat, dt: DoubleText)
    requires Writes(dt) && CompactSchemas(head, gprotos, schemas) && !HasRepeatedDouble(schemas) && protos in schemas
    requires ms != [] && forall m <- ms :: WellTypedMember(fpu, gprotos, protos, m)
    requires EncodeMembers(fpu, gprotos, protos, ms).Done? && |EncodeMembers(fpu, gprotos, protos, ms).bytes| < U32
    ensures RoomyMembers(head, |EncodeMembers(fpu, gprotos, protos, ms).bytes|, |MembersText(ms, depth, false, dt)|)
    decreases ms, 0
  {
    hide CompactSchemas, HasRepeatedDouble, EncodeMember, EncodeMembers, ValueText, StringText, WellTypedMember, Writes;
    MembersSplit(fpu, gprotos, protos, ms, depth, dt);
    MemberRoom(head, fpu, gprotos, schemas, protos, ms[0], depth, dt);
    if |ms| > 1 {
      MembersRoom(head, fpu, gprotos, schemas, protos, ms[1..], depth, dt);
    }
  }

  /** The length of one member's text. */
  function MemberLength(m: Member, depth: nat, dt: DoubleText): nat {
    |StringText(m.name)| + 1 + |ValueText(m.value, depth, false, dt)|
  }

  lemma MembersSplit(fpu: Fpu, gprotos: Json, protos: Json, ms: seq<Member>, depth: nat, dt: DoubleText)
    requires ms != [] && EncodeMembers(fpu, gprotos, protos, ms).Done?
    ensures var first, all := EncodeMember(fpu, gprotos, protos, ms[0]), EncodeMembers(fpu, gprotos, protos, ms);
            var rest := EncodeMembers(fpu, gprotos, protos, ms[1..]);
            && first.Done? && rest.Done? && |all.bytes| == |first.bytes| + |rest.bytes|
            && (|ms| == 1 ==> rest.bytes == [])
    ensures |MembersText(ms, depth, false, dt)|
         == MemberLength(ms[0], depth, dt) + if |ms| == 1 then 0 else 1 + |MembersText(ms[1..], depth, false, dt)|
  {
    hide EncodeMember, ValueText, StringText;
  }

  lemma {:induction false} MemberRoom(head: Head, fpu: Fpu, gprotos: Json, schemas: set<Json>, protos: Json, m: Member,
                                      depth: nat, dt: DoubleText)
    requires Writes(dt) && CompactSchemas(head, gprotos, schemas) && !HasRepeatedDouble(schemas) && protos in schemas
    requires WellTypedMember(fpu, gprotos, protos, m)
    requires EncodeMember(fpu, gprotos, protos, m).Done? && |EncodeMember(fpu, gprotos, protos, m).bytes| < U32
    ensures RoomyMembers(head, |EncodeMember(fpu, gprotos, protos, m).bytes|, MemberLength(m, depth, dt))
    decreases m, 2
  {
    hide HasRepeatedDouble, EncodeProto, EncodeArray, EncodeTag, ValueText, StringText, Varint, WellTypedValue;
    hide Writes, Find, Roomy;
    var proto := GetItem(protos, m.name).value;
    var t := ItemText(proto, "type").value;
    assert CompactSchema(head, gprotos, schemas, protos);
    assert FieldIn(head, gprotos, schemas, protos, m.name, proto);
    EscapedLength(m.name);
    if Repeated(proto) {
      assert IsDouble(proto) ==> RepeatsDouble(protos, m.name);
      NoRepeatedDouble(schemas, protos, m.name);
      ListRoom(head, fpu, gprotos, schemas, protos, proto, m.value, depth, dt);
    } else {
      SubSchemaFound(fpu, gprotos, protos, t, m.value);
      ValueRoom(head, fpu, gprotos, schemas, protos, proto, m.value, depth, dt);
      SingleRoom(head, TypeOf(t), |EncodeTag(proto).bytes|,
                 |EncodeProto(fpu, gprotos, protos, proto, m.value).bytes|, |StringText(m.name)|,
                 |ValueText(m.value, depth, false, dt)|, |m.name|);
    }
  }

  lemma SingleRoom(head: Head, t: FieldType, tag: nat, e: nat, name: nat, x: nat, n: nat)
    requires tag <= head && Roomy(head, t, e, x) && name >= n + 2 && (t == Double ==> n > 0)
    ensures RoomyMembers(head, tag + e, name + 1 + x)
  {
  }

  lemma NoRepeatedDouble(schemas: set<Json>, protos: Json, name: string)
    requires !HasRepeatedDouble(schemas) && protos in schemas
    ensures !RepeatsDouble(protos, name)
  {
  }

  lemma {:induction false} ListRoom(head: Head, fpu: Fpu, gprotos: Json, schemas: set<Json>, protos: Json,
                                    proto: Json, v: Json, depth: nat, dt: DoubleText)
    requires Writes(dt) && CompactSchemas(head, gprotos, schemas) && !HasRepeatedDouble(schemas)
    requires v.Array? && ItemText(proto, "type").Some? && !IsDouble(proto)
    requires EncodeTag(proto).Done? && |EncodeTag(proto).bytes| <= head
    requires var t := ItemText(proto, "type").value;
             && (forall x <- v.items :: WellTypedValue(fpu, gprotos, protos, t, x))
             && (TypeOf(t) == Message ==> SubSchema(gprotos, protos, t).Some? ==>
                 SubSchema(gprotos, protos, t).value in schemas)
    requires EncodeArray(fpu, gprotos, protos, proto, v.items).Done?
    requires |EncodeArray(fpu, gprotos, protos, proto, v.items).bytes| < U32
    ensures |EncodeArray(fpu, gprotos, protos, proto, v.items).bytes| <= 2 * |ValueText(v, depth, false, dt)| + 3 + head
    decreases v, 1
  {
    hide CompactSchemas, HasRepeatedDouble, EncodeItems, ItemsText, EncodeTag, Varint, WellTypedValue, Writes, Find;
    ShortVarint(|v.items|);
    if v.items != [] {
      ItemsRoom(head, fpu, gprotos, schemas, protos, proto, v.items, !Packed(ItemText(proto, "type").value),
                depth + 1, dt);
    } else {
      NoItems(fpu, gprotos, protos, proto, !Packed(ItemText(proto, "type").value));
    }
  }

  lemma NoItems(fpu: Fpu, gprotos: Json, protos: Json, proto: Json, tagged: bool)
    ensures EncodeItems(fpu, gprotos, protos, proto, [], tagged) == Enc.Done([])
  {
  }

  /** The elements of a list against their text, a comma or bracket counted for each. */
  lemma {:induction false} ItemsRoom(head: Head, fpu: Fpu, gprotos: Json, schemas: set<Json>, protos: Json, proto: Json,
                                     items: seq<Json>, tagged: bool, depth: nat, dt: DoubleText)
    requires Writes(dt) && CompactSchemas(head, gprotos, schemas) && !HasRepeatedDouble(schemas)
    requires items != [] && ItemText(proto, "type").Some? && !IsDouble(proto)
    requires tagged == !Packed(ItemText(proto, "type").value)
    requires EncodeTag(proto).Done? && |EncodeTag(proto).bytes| <= head
    requires var t := ItemText(proto, "type").value;
             && (forall x <- items :: WellTypedValue(fpu, gprotos, protos, t, x))
             && (TypeOf(t) == Message ==> SubSchema(gprotos, protos, t).Some? ==>
                 SubSchema(gprotos, protos, t).value in schemas)
    requires EncodeItems(fpu, gprotos, protos, proto, items, tagged).Done?
    requires |EncodeItems(fpu, gprotos, protos, proto, items, tagged).bytes| < U32
    ensures |EncodeItems(fpu, gprotos, protos, proto, items, tagged).bytes|
         <= 2 * (|ItemsText(items, depth, false, dt)| + 1)
    decreases items, 0
  {
    hide CompactSchemas, HasRepeatedDouble, EncodeItems, EncodeProto, EncodeTag, ItemsText, ValueText, Writes, Find;
    ItemsSplit(fpu, gprotos, protos, proto, items, tagged, depth, dt);
    SubSchemaFound(fpu, gprotos, protos, ItemText(proto, "type").value, items[0]);
    hide WellTypedValue;
    ValueRoom(head, fpu, gprotos, schemas, protos, proto, items[0], depth, dt);
    if |items| > 1 {
      ItemsRoom(head, fpu, gprotos, schemas, protos, proto, items[1..], tagged, depth, dt);
    }
  }

  lemma SubSchemaFound(fpu: Fpu, gprotos: Json, protos: Json, t: string, v: Json)
    requires WellTypedValue(fpu, gprotos, protos, t, v)
    ensures TypeOf(t) == Message ==> SubSchema(gprotos, protos, t).Some?
  {
  }

  lemma ItemsSplit(fpu: Fpu, gprotos: Json, protos: Json, proto: Json, items: seq<Json>, tagged: bool, depth: nat,
                   dt: DoubleText)
    requires items != [] && EncodeItems(fpu, gprotos, protos, proto, items, tagged).Done? && EncodeTag(proto).Done?
    ensures var first := EncodeProto(fpu, gprotos, protos, proto, items[0]);
            var all := EncodeItems(fpu, gprotos, protos, proto, items, tagged);
            var rest := EncodeItems(fpu, gprotos, protos, proto, items[1..], tagged);
            && first.Done? && rest.Done? && (|items| == 1 ==> rest.bytes == [])
            && |all.bytes| == (if tagged then |EncodeTag(proto).bytes| else 0) + |first.bytes| + |rest.bytes|
    ensures |ItemsText(items, depth, false, dt)|
         == |ValueText(items[0], depth, false, dt)|
            + if |items| == 1 then 0 else 1 + |ItemsText(items[1..], depth, false, dt)|
  {
    hide EncodeProto, EncodeTag, ValueText;
  }

  // ---- Exactly the schemas that always fit

  /** The encoding fits twice the text. */
  ghost predicate Fits(fpu: Fpu, gprotos: Json, protos: Json, msg: Json, dt: DoubleText) {
    var e := EncodeMsg(fpu, gprotos, protos, msg);
    e.Done? && |e.bytes| <= 2 * |ValueText(msg, 0, false, dt)|
  }

  /** The encoding is a message the decoder can read back. */
  ghost predicate Sendable(fpu: Fpu, gprotos: Json, protos: Json, msg: Json) {
    && WellTyped(fpu, gprotos, protos, msg)
    && EncodeMsg(fpu, gprotos, protos, msg).Done? && |EncodeMsg(fpu, gprotos, protos, msg).bytes| < U32
  }

  ghost predicate AlwaysFits(fpu: Fpu, gprotos: Json, schemas: set<Json>, dt: DoubleText) {
    forall protos, msg ::
      protos in schemas && Sendable(fpu, gprotos, protos, msg) ==> Fits(fpu, gprotos, protos, msg, dt)
  }

  lemma SendableFits(head: Head, fpu: Fpu, gprotos: Json, schemas: set<Json>, protos: Json, msg: Json, dt: DoubleText)
    requires Writes(dt) && CompactSchemas(head, gprotos, schemas) && !HasRepeatedDouble(schemas) && protos in schemas
    requires Sendable(fpu, gprotos, protos, msg)
    ensures Fits(fpu, gprotos, protos, msg, dt)
  {
    hide CompactSchemas, HasRepeatedDouble, EncodeMsg, ValueText, WellTyped, Writes;
    MessageFits(head, fpu, gprotos, schemas, protos, msg, 0, dt);
    ShortVarint(|EncodeMsg(fpu, gprotos, protos, msg).bytes|);
  }

  /** The number 1, `n` times. */
  function Ones(n: nat): seq<Json> {
    if n == 0 then [] else [Number(1, 1.0)] + Ones(n - 1)
  }

  /** The number 1 survives as a double. */
  ghost predicate KeepsOne(fpu: Fpu) {
    fpu.ofDouble(fpu.double(1.0)) == Some(1.0)
  }

  lemma {:induction false} OnesLength(n: nat, depth: nat, dt: DoubleText)
    ensures |Ones(n)| == n && (forall x <- Ones(n) :: x == Number(1, 1.0))
    ensures n > 0 ==> |ItemsText(Ones(n), depth, false, dt)| == 2 * n - 1
  {
    assert Digits(1) == "1" && |ValueText(Number(1, 1.0), depth, false, dt)| == 1 by {
      IntText(Number(1, 1.0), depth, dt);
    }
    hide ValueText, Digits;
    if n > 0 {
      OnesLength(n - 1, depth, dt);
      assert Ones(n)[1..] == Ones(n - 1);
    }
  }

  lemma {:induction false} OnesBytes(fpu: Fpu, gprotos: Json, protos: Json, proto: Json, n: nat)
    requires IsDouble(proto)
    ensures var e := EncodeItems(fpu, gprotos, protos, proto, Ones(n), false); e.Done? && |e.bytes| == 8 * n
  {
    hide Find;
    if n > 0 {
      OnesBytes(fpu, gprotos, protos, proto, n - 1);
      assert Ones(n)[1..] == Ones(n - 1);
    }
  }

  /** A message of one member. */
  function Only(name: string, v: Json): Json {
    Object([Member(name, v)])
  }

  lemma OnlyBytes(fpu: Fpu, gprotos: Json, protos: Json, name: string, v: Json)
    ensures EncodeMsg(fpu, gprotos, protos, Only(name, v)) == EncodeMember(fpu, gprotos, protos, Member(name, v))
  {
    hide EncodeMember;
    var e := EncodeMember(fpu, gprotos, protos, Member(name, v));
    var ms := [Member(name, v)];
    assert ms[1..] == [] && ms != [];
    assert EncodeMembers(fpu, gprotos, protos, ms) == e.Then(EncodeMembers(fpu, gprotos, protos, ms[1..]));
    NoMembers(fpu, gprotos, protos);
    assert e.Done? ==> e.bytes + [] == e.bytes;
  }

  lemma OnlyText(name: string, items: seq<Json>, dt: DoubleText)
    requires items != []
    ensures |ValueText(Only(name, Array(items)), 0, false, dt)|
         == |StringText(name)| + |ItemsText(items, 2, false, dt)| + 5
  {
    hide ItemsText, StringText;
    var m := Member(name, Array(items));
    assert [m][1..] == [];
    assert MembersText([m], 1, false, dt) == NameText(m, 1, false) + ValueText(m.value, 1, false, dt) + [] + [] + "";
  }

  /** Enough ones in a repeated field of doubles take more than twice their text. */
  lemma RepeatedDoubleOverflows(head: Head, fpu: Fpu, gprotos: Json, protos: Json, name: string, dt: DoubleText)
    requires RepeatsDouble(protos, name) && Compact(head, name, GetItem(protos, name).value) && KeepsOne(fpu)
    ensures var msg := Only(name, Array(Ones(|StringText(name)| + 2)));
            Sendable(fpu, gprotos, protos, msg) && !Fits(fpu, gprotos, protos, msg, dt)
  {
    hide EncodeMsg, EncodeItems, EncodeTag, StringText, ValueText, ItemsText, Varint, Find, Ones;
    var n := |StringText(name)| + 2;
    var proto := GetItem(protos, name).value;
    var list := Array(Ones(n));
    OnesLength(n, 2, dt);
    OnesBytes(fpu, gprotos, protos, proto, n);
    OnlyBytes(fpu, gprotos, protos, name, list);
    OnlyText(name, Ones(n), dt);
    EscapedLength(name);
    ShortVarint(n);
    assert EncodeMember(fpu, gprotos, protos, Member(name, list))
        == EncodeArray(fpu, gprotos, protos, proto, list.items);
    forall x | x in list.items
      ensures WellTypedValue(fpu, gprotos, protos, ItemText(proto, "type").value, x)
    {
      CreateNumberOfInt(1);
    }
    assert WellTypedMember(fpu, gprotos, protos, Member(name, list));
    TagNotEmpty(proto);
  }

  lemma TagNotEmpty(proto: Json)
    ensures EncodeTag(proto).Done? ==> |EncodeTag(proto).bytes| >= 1
  {
  }

  /** Among schemas of compact fields, twice the text is always enough exactly when no
      field repeats doubles. */
  lemma SchemasFitIff(head: Head, fpu: Fpu, gprotos: Json, schemas: set<Json>, dt: DoubleText)
    requires Writes(dt) && CompactSchemas(head, gprotos, schemas) && KeepsOne(fpu)
    ensures AlwaysFits(fpu, gprotos, schemas, dt) <==> !HasRepeatedDouble(schemas)
  {
    hide CompactSchemas, Sendable, Fits, Writes, Find, FieldOk, Compact;
    if HasRepeatedDouble(schemas) {
      var protos, name :| protos in schemas && RepeatsDouble(protos, name);
      CompactField(head, gprotos, schemas, protos, name);
      RepeatedDoubleOverflows(head, fpu, gprotos, protos, name, dt);
    } else {
      forall protos, msg | protos in schemas && Sendable(fpu, gprotos, protos, msg)
        ensures Fits(fpu, gprotos, protos, msg, dt)
      {
        SendableFits(head, fpu, gprotos, schemas, protos, msg, dt);
      }
    }
  }

  lemma CompactField(head: Head, gprotos: Json, schemas: set<Json>, protos: Json, name: string)
    requires CompactSchemas(head, gprotos, schemas) && protos in schemas && RepeatsDouble(protos, name)
    ensures Compact(head, name, GetItem(protos, name).value)
  {
    assert CompactSchema(head, gprotos, schemas, protos);
  }

  // ---- Why the tags have to be small

  /** The smallest tag number whose header takes four bytes. */
  const LARGE_TAG: int := 0x4_0000

  function LargeField(option: string, t: string): Json {
    Object([Member("option", String(option)), Member("type", String(t)),
            Member("tag", Number(LARGE_TAG, LARGE_TAG as real))])
  }

  function LargeTags(name: string): Json {
    Object([Member("262144", String(name))])
  }

  /** A message of one double. */
  function BoxSchema(): Json {
    Object([Member("a", LargeField("optional", "double")), Member("__tags", LargeTags("a"))])
  }

  /** A message of a list of those. */
  function BoxesSchema(): Json {
    Object([Member("m", LargeField("repeated", "Box")), Member("__tags", LargeTags("m")),
            Member("__messages", Object([Member("Box", BoxSchema())]))])
  }

  function Box(): Json {
    Only("a", Number(1, 1.0))
  }

  function Boxes(n: nat): seq<Json> {
    if n == 0 then [] else [Box()] + Boxes(n - 1)
  }

  lemma LargeFieldFound(option: string, t: string)
    ensures ItemText(LargeField(option, t), "option") == Some(option)
         && ItemText(LargeField(option, t), "type") == Some(t)
    ensures GetItem(LargeField(option, t), "tag") == Some(Number(LARGE_TAG, LARGE_TAG as real))
  {
  }

  lemma LargeTagDigits()
    ensures Digits(LARGE_TAG) == "262144"
  {
    assert Digits(26) == "26" && Digits(262) == "262" && Digits(2621) == "2621" && Digits(26214) == "26214";
  }

  lemma LargeTagFound(name: string)
    ensures ItemText(LargeTags(name), Digits(LARGE_TAG)) == Some(name)
  {
    LargeTagDigits();
  }

  lemma BoxSchemaFound()
    ensures GetItem(BoxSchema(), "a") == Some(LargeField("optional", "double"))
    ensures GetItem(BoxSchema(), "__tags") == Some(LargeTags("a"))
    ensures FieldOk(BoxSchema(), "a", LargeField("optional", "double"))
  {
    hide LargeField, LargeTags, Digits;
    LargeFieldFound("optional", "double");
    LargeTagFound("a");
  }

  lemma BoxesSchemaFound()
    ensures GetItem(BoxesSchema(), "m") == Some(LargeField("repeated", "Box"))
    ensures GetItem(BoxesSchema(), "__tags") == Some(LargeTags("m"))
    ensures SubSchema(Object([]), BoxesSchema(), "Box") == Some(BoxSchema())
    ensures FieldOk(BoxesSchema(), "m", LargeField("repeated", "Box"))
  {
    hide LargeField, LargeTags, BoxSchema, Digits;
    LargeFieldFound("repeated", "Box");
    LargeTagFound("m");
  }

  /** Four bytes of header. */
  lemma LargeTagBytes(option: string, t: string)
    ensures var e := EncodeTag(LargeField(option, t)); e.Done? && |e.bytes| == 4
  {
    hide LargeField;
    LargeFieldFound(option, t);
    LongVarint(Tag(LARGE_TAG, WireType(t)));
  }

  lemma LongVarint(v: nat)
    requires 0x20_0000 <= v < 0x1000_0000
    ensures |Varint(v)| == 4
  {
    var a, b, c := v / 128, v / 128 / 128, v / 128 / 128 / 128;
    assert 1 <= c < 128 && |Varint(c)| == 1;
    assert |Varint(b)| == 2;
    assert |Varint(a)| == 3;
  }

  lemma BoxBytes(fpu: Fpu)
    requires KeepsOne(fpu)
    ensures WellTyped(fpu, Object([]), BoxSchema(), Box())
    ensures var e := EncodeMsg(fpu, Object([]), BoxSchema(), Box()); e.Done? && |e.bytes| == 12
  {
    hide LargeField, EncodeMsg, EncodeTag, Find, BoxSchema, WellTypedMember;
    BoxSchemaFound();
    LargeFieldFound("optional", "double");
    LargeTagBytes("optional", "double");
    OnlyBytes(fpu, Object([]), BoxSchema(), "a", Number(1, 1.0));
    BoxMember(fpu);
  }

  lemma BoxMember(fpu: Fpu)
    requires KeepsOne(fpu)
    ensures WellTypedMember(fpu, Object([]), BoxSchema(), Member("a", Number(1, 1.0)))
  {
    hide LargeField, Find, BoxSchema, FieldOk;
    BoxSchemaFound();
    LargeFieldFound("optional", "double");
    CreateNumberOfInt(1);
  }

  lemma BoxText(depth: nat, dt: DoubleText)
    ensures |ValueText(Box(), depth, false, dt)| == 7
  {
    var one := Number(1, 1.0);
    ShortTexts();
    IntText(one, depth + 1, dt);
    assert Digits(1) == "1" && |ValueText(one, depth + 1, false, dt)| == 1;
    hide Digits, Decimal;
    assert [Member("a", one)][1..] == [];
    assert MembersText([Member("a", one)], depth + 1, false, dt)
        == NameText(Member("a", one), depth + 1, false) + ValueText(one, depth + 1, false, dt) + [] + [] + "";
  }

  lemma {:induction false} BoxesText(n: nat, depth: nat, dt: DoubleText)
    ensures |Boxes(n)| == n && (forall x <- Boxes(n) :: x == Box())
    ensures n > 0 ==> |ItemsText(Boxes(n), depth, false, dt)| == 8 * n - 1
  {
    BoxText(depth, dt);
    hide ValueText, Box;
    if n > 0 {
      BoxesText(n - 1, depth, dt);
      assert Boxes(n)[1..] == Boxes(n - 1);
    }
  }

  lemma BoxElement(fpu: Fpu)
    requires KeepsOne(fpu)
    ensures var e := EncodeItem(fpu, Object([]), BoxesSchema(), LargeField("repeated", "Box"), Box(), true);
            e.Done? && |e.bytes| == 17
  {
    hide EncodeMsg, EncodeTag, LargeField, BoxesSchema, BoxSchema, Find, Varint, Box;
    LargeTagBytes("repeated", "Box");
    LargeFieldFound("repeated", "Box");
    BoxesSchemaFound();
    BoxBytes(fpu);
    ShortVarint(12);
  }

  lemma {:induction false} BoxesBytes(fpu: Fpu, n: nat)
    requires KeepsOne(fpu)
    ensures var e := EncodeItems(fpu, Object([]), BoxesSchema(), LargeField("repeated", "Box"), Boxes(n), true);
            e.Done? && |e.bytes| == 17 * n
  {
    hide EncodeItem, LargeField, BoxesSchema, Box;
    if n > 0 {
      BoxElement(fpu);
      BoxesBytes(fpu, n - 1);
      assert Boxes(n)[1..] == Boxes(n - 1);
    }
  }

  /** With tag numbers of 2^18 a schema that repeats no doubles has messages that do not fit. */
  lemma LargeTagsFail(fpu: Fpu, dt: DoubleText)
    requires KeepsOne(fpu)
    ensures var msg := Only("m", Array(Boxes(15)));
            Sendable(fpu, Object([]), BoxesSchema(), msg) && !Fits(fpu, Object([]), BoxesSchema(), msg, dt)
  {
    hide EncodeMsg, EncodeItems, EncodeTag, ValueText, ItemsText, Find, Boxes, BoxesSchema, LargeField,
         WellTypedMember, Box;
    var list := Array(Boxes(15));
    BoxesText(15, 2, dt);
    BoxesBytes(fpu, 15);
    BoxesSchemaFound();
    LargeFieldFound("repeated", "Box");
    OnlyBytes(fpu, Object([]), BoxesSchema(), "m", list);
    OnlyText("m", Boxes(15), dt);
    ShortTexts();
    BoxesMember(fpu, 15, dt);
  }

  lemma ShortTexts()
    ensures |StringText("a")| == |StringText("m")| == 3
  {
    assert Escaped("a") == EscapeChar('a') + Escaped("");
    assert Escaped("m") == EscapeChar('m') + Escaped("");
  }

  lemma BoxesMember(fpu: Fpu, n: nat, dt: DoubleText)
    requires KeepsOne(fpu) && n > 0
    ensures WellTypedMember(fpu, Object([]), BoxesSchema(), Member("m", Array(Boxes(n))))
  {
    hide LargeField, Find, BoxesSchema, FieldOk, Boxes, Box, WellTyped, ItemsText;
    BoxesSchemaFound();
    LargeFieldFound("repeated", "Box");
    BoxesText(n, 0, dt);
    BoxBytes(fpu);
  }
}
