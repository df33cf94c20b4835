/** The protobuf encoder itself: an output stream updated in place, and the
    mutually recursive calls that walk the message. */
module PbEncoder {
  import opened JsonTree
  import opened PbEncodeSpec
  import opened Words

  /** Value of an output stream: `sizing` is the stream without a callback, which
      only counts. */
  datatype Out = Out(sizing: bool, buf: seq<Byte>, state: nat, maxSize: nat, written: nat)

  ghost predicate OutOk(o: Out) {
    !o.sizing ==> o.written <= o.maxSize && o.state + (o.maxSize - o.written) <= |o.buf|
  }

  ghost predicate Fits(o: Out, n: nat) {
    o.sizing || o.written + n <= o.maxSize
  }

  /** The stream after `b` went through it. */
  ghost function Put(o: Out, b: seq<Byte>): (p: Out)
    requires OutOk(o) && Fits(o, |b|)
    ensures OutOk(p)
  {
    if o.sizing then o.(written := o.written + |b|)
    else o.(buf := Splice(o.buf, o.state, b),
            state := o.state + |b|, written := o.written + |b|)
  }

  /** A failed call may have written, but only inside the capacity it was given. */
  ghost predicate Confined(o: Out, p: Out) {
    && OutOk(o) && OutOk(p)
    && p.sizing == o.sizing && p.maxSize == o.maxSize && |p.buf| == |o.buf|
    && (!o.sizing ==>
          && o.written <= p.written && p.state - o.state == p.written - o.written
          && forall i :: 0 <= i < o.state || o.state + (o.maxSize - o.written) <= i < |o.buf| ==> p.buf[i] == o.buf[i])
  }

  /** What every encoding call promises about the stream, its status and the bytes. */
  ghost predicate Emits(o: Out, p: Out, ok: bool, e: Enc) {
    && OutOk(o)
    && ok == (e.Done? && Fits(o, |e.bytes|))
    && (if ok then p == Put(o, e.bytes) else Confined(o, p))
  }

  lemma PutStaysConfined(o: Out, b: seq<Byte>)
    requires OutOk(o) && Fits(o, |b|)
    ensures Confined(o, Put(o, b))
  {}

  lemma ConfinedTransitive(o: Out, p: Out, q: Out)
    requires Confined(o, p) && Confined(p, q)
    ensures Confined(o, q)
  {}

  lemma PutPut(o: Out, a: seq<Byte>, b: seq<Byte>)
    requires OutOk(o) && Fits(o, |a|) && Fits(Put(o, a), |b|)
    ensures Fits(o, |a + b|) && Put(Put(o, a), b) == Put(o, a + b)
  {
    if !o.sizing {
      SpliceSplice(o.buf, o.state, a, b);
    }
  }

  function Splice(s: seq<Byte>, at: nat, b: seq<Byte>): (r: seq<Byte>)
    requires at + |b| <= |s|
    ensures |r| == |s|
  {
    s[..at] + b + s[at + |b|..]
  }

  lemma SpliceSplice(s: seq<Byte>, at: nat, a: seq<Byte>, b: seq<Byte>)
    requires at + |a| + |b| <= |s|
    ensures Splice(Splice(s, at, a), at + |a|, b) == Splice(s, at, a + b)
  {
    var r := Splice(s, at, a);
    assert r[..at + |a|] == s[..at] + a;
    assert r[at + |a| + |b|..] == s[at + |a + b|..];
    assert (s[..at] + a) + b == s[..at] + (a + b);
  }

  lemma EmitsThen(o: Out, p: Out, q: Out, ok: bool, e: Enc, f: Enc)
    requires Emits(o, p, true, e) && Emits(p, q, ok, f)
    ensures Emits(o, q, ok, e.Then(f))
  {
    if ok {
      PutPut(o, e.bytes, f.bytes);
    } else {
      PutStaysConfined(o, e.bytes);
      ConfinedTransitive(o, p, q);
    }
  }

  lemma EmitsFails(o: Out, p: Out, e: Enc, f: Enc)
    requires Emits(o, p, false, e)
    ensures Emits(o, p, false, e.Then(f))
  {}

  lemma EmitsSucceeds(o: Out, p: Out, e: Enc)
    requires Emits(o, p, true, e)
    ensures e.Done?
  {}

  lemma EmitsRefused(o: Out)
    requires OutOk(o)
    ensures Emits(o, o, false, Refused)
  {}

  /** The writing pass, run in a substream limited to the counted size, fills that
      size exactly, and the parent stream takes over its position. */
  lemma WritePassFills(o: Out, sub: Out, ok: bool, e: Enc)
    requires OutOk(o) && !o.sizing && e.Done? && Fits(o, |e.bytes|)
    requires Emits(Out(false, o.buf, o.state, |e.bytes|, 0), sub, ok, e)
    ensures ok && sub.written == |e.bytes|
    ensures Out(false, sub.buf, sub.state, o.maxSize, o.written + sub.written) == Put(o, e.bytes)
  {}

  lemma EmitsNothing(o: Out)
    requires OutOk(o)
    ensures Emits(o, o, true, Done([]))
  {
    assert Put(o, []) == o;
  }

  lemma ThenNothing(e: Enc)
    ensures Done([]).Then(e) == e && e.Then(Done([])) == e
  {
    if e.Done? {
      assert [] + e.bytes == e.bytes && e.bytes + [] == e.bytes;
    }
  }

  lemma ThenReaches(a: Enc, b: Enc, c: Enc)
    ensures a.Done? && a.Then(b.Then(c)) != Undefined ==> b != Undefined
  {
  }

  lemma ThenAssociative(a: Enc, b: Enc, c: Enc)
    ensures a.Then(b).Then(c) == a.Then(b.Then(c))
  {
    if a.Done? && b.Done? && c.Done? {
      assert (a.bytes + b.bytes) + c.bytes == a.bytes + (b.bytes + c.bytes);
    }
  }

  lemma ItemsStep(fpu: Fpu, gprotos: Json, protos: Json, proto: Json, items: seq<Json>, i: nat, tagged: bool)
    requires i < |items|
    ensures EncodeItems(fpu, gprotos, protos, proto, items[i..], tagged)
         == EncodeItem(fpu, gprotos, protos, proto, items[i], tagged)
            .Then(EncodeItems(fpu, gprotos, protos, proto, items[i + 1..], tagged))
  {
    assert items[i..][0] == items[i] && items[i..][1..] == items[i + 1..];
  }

  lemma ItemsEnd(fpu: Fpu, gprotos: Json, protos: Json, proto: Json, items: seq<Json>, tagged: bool)
    ensures EncodeItems(fpu, gprotos, protos, proto, items[|items|..], tagged) == Done([])
  {}

  /** The loop of pb_encode_varint; its ten-byte buffer suffices for 64 bits. */
  method VarintBytes(value: nat) returns (bytes: seq<Byte>)
    requires 0 < value < U64
    ensures bytes == Varint(value)
  {
    var buffer := new Byte[10](_ => 0);
    var v, i := value, 0;
    VarintLength64(value);
    assert buffer[..0] == [];
    while v > 0
      invariant 0 <= i <= 10 && 0 <= v
      invariant v > 0 ==> Varint(value) == buffer[..i] + Varint(v)
      invariant v == 0 ==> i > 0 && buffer[i - 1] >= 128 && Varint(value) == buffer[..i - 1] + [buffer[i - 1] - 128]
      decreases v
    {
      ghost var before := buffer[..i];
      assert v >= 128 ==> Varint(value) == (before + [v % 128 + 128]) + Varint(v / 128);
      buffer[i] := v % 128 + 128;
      assert buffer[..i] == before && buffer[..i + 1] == before + [buffer[i]];
      v := v / 128;
      i := i + 1;
    }
    buffer[i - 1] := buffer[i - 1] - 128;
    bytes := buffer[..i];
  }

  class OStream {
    var buf: array?<Byte>
    var state: nat
    var maxSize: nat
    var bytesWritten: nat

    ghost function Model(): (o: Out)
      reads this, buf
    {
      Out(buf == null, if buf == null then [] else buf[..], state, maxSize, bytesWritten)
    }

    /** The sizing substream. */
    constructor Sizing()
      ensures buf == null && Model() == Out(true, [], 0, 0, 0)
    {
      buf := null;
      state, maxSize, bytesWritten := 0, 0, 0;
    }

    constructor At(b: array<Byte>, start: nat, size: nat)
      ensures buf == b && Model() == Out(false, b[..], start, size, 0)
    {
      buf := b;
      state, maxSize, bytesWritten := start, size, 0;
    }

    /** pb_write on a stream with a buffer. */
    method Write(data: seq<Byte>) returns (ok: bool)
      requires OutOk(Model())
      modifies this, buf
      ensures buf == old(buf) && OutOk(Model())
      ensures Emits(old(Model()), Model(), ok, Done(data))
    {
      if buf != null {
        if bytesWritten + |data| > maxSize {
          return false;
        }
        forall i | 0 <= i < |data| {
          buf[state + i] := data[i];
        }
        state := state + |data|;
        assert buf[..] == Put(old(Model()), data).buf;
      }
      bytesWritten := bytesWritten + |data|;
      ok := true;
    }

    /** pb_write of `count` bytes that are not looked at, on a stream that only counts. */
    method Skip(ghost data: seq<Byte>, count: nat) returns (ok: bool)
      requires buf == null && count == |data|
      modifies this
      ensures buf == old(buf) && OutOk(Model())
      ensures Emits(old(Model()), Model(), ok, Done(data))
    {
      bytesWritten := bytesWritten + count;
      ok := true;
    }

    method EncodeVarint(value: nat) returns (ok: bool)
      requires OutOk(Model()) && value < U64
      modifies this, buf
      ensures buf == old(buf) && OutOk(Model())
      ensures Emits(old(Model()), Model(), ok, Done(Varint(value)))
    {
      if value == 0 {
        ok := Write([0]);
      } else {
        var bytes := VarintBytes(value);
        ok := Write(bytes);
      }
    }

    method EncodeSVarint(value: int) returns (ok: bool)
      requires OutOk(Model())
      modifies this, buf
      ensures buf == old(buf) && OutOk(Model())
      ensures Emits(old(Model()), Model(), ok, Done(Varint(ToU64(ZigZag(value)))))
    {
      var zigzagged;
      if value < 0 {
        zigzagged := ToU64(-(value * 2) - 1);
      } else {
        zigzagged := ToU64(value * 2);
      }
      ok := EncodeVarint(zigzagged);
    }

    method EncodeString(text: string) returns (ok: bool)
      requires OutOk(Model()) && |text| < INT_LIMIT
      modifies this, buf
      ensures buf == old(buf) && OutOk(Model())
      ensures Emits(old(Model()), Model(), ok, Done(Varint(|text|)).Then(Done(ToBytes(text))))
    {
      hide Emits;
      ghost var o := Model();
      ok := EncodeVarint(|text|);
      if !ok {
        EmitsFails(o, Model(), Done(Varint(|text|)), Done(ToBytes(text)));
        return;
      }
      ghost var p := Model();
      ok := Write(ToBytes(text));
      EmitsThen(o, p, Model(), ok, Done(Varint(|text|)), Done(ToBytes(text)));
    }

    method EncodeTagForField(field: Json) returns (ok: bool)
      requires OutOk(Model()) && EncodeTag(field) != Undefined
      modifies this, buf
      ensures buf == old(buf) && OutOk(Model())
      ensures Emits(old(Model()), Model(), ok, EncodeTag(field))
    {
      hide Emits;
      var t := ItemText(field, "type").value;
      var tag := GetItem(field, "tag").value;
      ok := EncodeVarint(Tag(ValueInt(tag), WireType(t)));
    }

    /** pb_encode: one member after the other, in the message's order. */
    method Encode(fpu: Fpu, gprotos: Json, protos: Json, msg: Json) returns (ok: bool)
      requires OutOk(Model())
      requires EncodeMsg(fpu, gprotos, protos, msg) != Undefined
      modifies this, buf
      ensures buf == old(buf) && OutOk(Model())
      ensures Emits(old(Model()), Model(), ok, EncodeMsg(fpu, gprotos, protos, msg))
      decreases msg, 1
    {
      hide Emits, OutOk;
      ghost var o := Model();
      EmitsNothing(o);
      if !msg.Object? {
        return true;
      }
      var ms := msg.members;
      ghost var all := EncodeMembers(fpu, gprotos, protos, ms);
      ghost var acc := Done([]);
      var i := 0;
      assert ms[0..] == ms;
      while i < |ms|
        invariant 0 <= i <= |ms| && buf == old(buf) && OutOk(Model())
        invariant acc.Done? && Emits(o, Model(), true, acc)
        invariant acc.Then(EncodeMembers(fpu, gprotos, protos, ms[i..])) == all
      {
        hide PbEncodeSpec.EncodeMember;
        ghost var p := Model();
        ghost var e := PbEncodeSpec.EncodeMember(fpu, gprotos, protos, ms[i]);
        ghost var rest := EncodeMembers(fpu, gprotos, protos, ms[i + 1..]);
        assert ms[i..][0] == ms[i] && ms[i..][1..] == ms[i + 1..];
        ThenAssociative(acc, e, rest);
        ok := EncodeMember(fpu, gprotos, protos, ms[i]);
        EmitsThen(o, p, Model(), ok, acc, e);
        acc := acc.Then(e);
        if !ok {
          EmitsFails(o, Model(), acc, rest);
          return;
        }
        EmitsSucceeds(o, Model(), acc);
        i := i + 1;
      }
      assert acc.bytes + [] == acc.bytes;
      ok := true;
    }

    method EncodeMember(fpu: Fpu, gprotos: Json, protos: Json, m: Member) returns (ok: bool)
      requires OutOk(Model())
      requires PbEncodeSpec.EncodeMember(fpu, gprotos, protos, m) != Undefined
      modifies this, buf
      ensures buf == old(buf) && OutOk(Model())
      ensures Emits(old(Model()), Model(), ok, PbEncodeSpec.EncodeMember(fpu, gprotos, protos, m))
      decreases m, 5
    {
      hide Emits, OutOk;
      ghost var o := Model();
      EmitsNothing(o);
      EmitsRefused(o);
      var proto := GetItem(protos, m.name);
      if proto.None? {
        return false;
      }
      var option := ItemText(proto.value, "option").value;
      if option == "required" || option == "optional" {
        ghost var e := PbEncodeSpec.EncodeProto(fpu, gprotos, protos, proto.value, m.value);
        ok := EncodeTagForField(proto.value);
        if !ok {
          EmitsFails(o, Model(), EncodeTag(proto.value), e);
          return;
        }
        EmitsSucceeds(o, Model(), EncodeTag(proto.value));
        ghost var p := Model();
        ok := EncodeProto(fpu, gprotos, protos, proto.value, m.value);
        EmitsThen(o, p, Model(), ok, EncodeTag(proto.value), e);
      } else if option == "repeated" && m.value.Array? {
        ok := EncodeArray(fpu, gprotos, protos, proto.value, m.value.items);
      } else {
        ok := true;
      }
    }

    method EncodeArray(fpu: Fpu, gprotos: Json, protos: Json, proto: Json, items: seq<Json>) returns (ok: bool)
      requires OutOk(Model())
      requires PbEncodeSpec.EncodeArray(fpu, gprotos, protos, proto, items) != Undefined
      modifies this, buf
      ensures buf == old(buf) && OutOk(Model())
      ensures Emits(old(Model()), Model(), ok, PbEncodeSpec.EncodeArray(fpu, gprotos, protos, proto, items))
      decreases items, 5
    {
      hide Emits, OutOk, EncodeTag, PbEncodeSpec.EncodeItems, TypeOf, Packed;
      ghost var o := Model();
      var t := ItemText(proto, "type").value;
      if Packed(t) {
        ghost var count := Count(|items|, INT_LIMIT);
        ghost var rest := PbEncodeSpec.EncodeItems(fpu, gprotos, protos, proto, items, false);
        ok := EncodeTagForField(proto);
        if !ok {
          EmitsFails(o, Model(), EncodeTag(proto), count);
          EmitsFails(o, Model(), EncodeTag(proto).Then(count), rest);
          return;
        }
        EmitsSucceeds(o, Model(), EncodeTag(proto));
        ghost var p := Model();
        ok := EncodeVarint(|items|);
        EmitsThen(o, p, Model(), ok, EncodeTag(proto), count);
        if !ok {
          EmitsFails(o, Model(), EncodeTag(proto).Then(count), rest);
          return;
        }
        p := Model();
        ok := EncodeItems(fpu, gprotos, protos, proto, items, false);
        EmitsThen(o, p, Model(), ok, EncodeTag(proto).Then(count), rest);
      } else {
        ok := EncodeItems(fpu, gprotos, protos, proto, items, true);
      }
    }

    /** The two `for` loops of pb_encode_array: `tagged` is the second one. */
    method EncodeItems(fpu: Fpu, gprotos: Json, protos: Json, proto: Json, items: seq<Json>, tagged: bool)
      returns (ok: bool)
      requires OutOk(Model())
      requires PbEncodeSpec.EncodeItems(fpu, gprotos, protos, proto, items, tagged) != Undefined
      modifies this, buf
      ensures buf == old(buf) && OutOk(Model())
      ensures Emits(old(Model()), Model(), ok, PbEncodeSpec.EncodeItems(fpu, gprotos, protos, proto, items, tagged))
      decreases items, 4
    {
      hide Emits, OutOk, Model, PbEncodeSpec.EncodeItem, PbEncodeSpec.EncodeItems, Enc.Then;
      ghost var o := Model();
      EmitsNothing(o);
      ghost var all := PbEncodeSpec.EncodeItems(fpu, gprotos, protos, proto, items, tagged);
      ghost var acc := Done([]);
      var i := 0;
      ThenNothing(all);
      assert items[0..] == items;
      while i < |items|
        invariant 0 <= i <= |items| && buf == old(buf) && OutOk(Model())
        invariant acc.Done? && Emits(o, Model(), true, acc)
        invariant acc.Then(PbEncodeSpec.EncodeItems(fpu, gprotos, protos, proto, items[i..], tagged)) == all
      {
        ghost var p := Model();
        ghost var e := PbEncodeSpec.EncodeItem(fpu, gprotos, protos, proto, items[i], tagged);
        ghost var rest := PbEncodeSpec.EncodeItems(fpu, gprotos, protos, proto, items[i + 1..], tagged);
        ItemsStep(fpu, gprotos, protos, proto, items, i, tagged);
        ThenAssociative(acc, e, rest);
        ThenReaches(acc, e, rest);
        ok := EncodeItem(fpu, gprotos, protos, proto, items[i], tagged);
        EmitsThen(o, p, Model(), ok, acc, e);
        acc := acc.Then(e);
        if !ok {
          EmitsFails(o, Model(), acc, rest);
          return;
        }
        EmitsSucceeds(o, Model(), acc);
        i := i + 1;
      }
      ItemsEnd(fpu, gprotos, protos, proto, items, tagged);
      ThenNothing(acc);
      ok := true;
    }

    method EncodeItem(fpu: Fpu, gprotos: Json, protos: Json, proto: Json, item: Json, tagged: bool) returns (ok: bool)
      requires OutOk(Model())
      requires PbEncodeSpec.EncodeItem(fpu, gprotos, protos, proto, item, tagged) != Undefined
      modifies this, buf
      ensures buf == old(buf) && OutOk(Model())
      ensures Emits(old(Model()), Model(), ok, PbEncodeSpec.EncodeItem(fpu, gprotos, protos, proto, item, tagged))
      decreases item, 4
    {
      hide Emits, OutOk, PbEncodeSpec.EncodeProto, EncodeTag;
      ghost var e := PbEncodeSpec.EncodeProto(fpu, gprotos, protos, proto, item);
      if tagged {
        ghost var o := Model();
        ok := EncodeTagForField(proto);
        if !ok {
          EmitsFails(o, Model(), EncodeTag(proto), e);
          return;
        }
        EmitsSucceeds(o, Model(), EncodeTag(proto));
        ghost var p := Model();
        ok := EncodeProto(fpu, gprotos, protos, proto, item);
        EmitsThen(o, p, Model(), ok, EncodeTag(proto), e);
      } else {
        ok := EncodeProto(fpu, gprotos, protos, proto, item);
      }
    }

    method EncodeProto(fpu: Fpu, gprotos: Json, protos: Json, proto: Json, value: Json) returns (ok: bool)
      requires OutOk(Model())
      requires PbEncodeSpec.EncodeProto(fpu, gprotos, protos, proto, value) != Undefined
      modifies this, buf
      ensures buf == old(buf) && OutOk(Model())
      ensures Emits(old(Model()), Model(), ok, PbEncodeSpec.EncodeProto(fpu, gprotos, protos, proto, value))
      decreases value, 3
    {
      hide Emits, OutOk;
      EmitsNothing(Model());
      EmitsRefused(Model());
      var t := ItemText(proto, "type").value;
      match TypeOf(t)
      case UInt32 =>
        ok := EncodeVarint(ToU64(ValueInt(value)));
      case Int32 | SInt32 =>
        ok := EncodeSVarint(ValueInt(value));
      case Float =>
        ok := Write(fpu.single(ValueDouble(value)));
      case Double =>
        ok := Write(fpu.double(ValueDouble(value)));
      case Text =>
        ok := EncodeString(ValueString(value).value);
      case Message =>
        var messages := GetItem(protos, "__messages");
        if messages.None? {
          return true;
        }
        var sub := Resolve(gprotos, messages.value, t);
        if sub.None? {
          return false;
        }
        ok := EncodeSubmessage(fpu, gprotos, sub.value, value);
    }

    /** Two passes: a counting one for the length prefix, then the writing one in a
        substream limited to exactly that length. */
    method EncodeSubmessage(fpu: Fpu, gprotos: Json, protos: Json, value: Json) returns (ok: bool)
      requires OutOk(Model())
      requires LengthPrefixed(EncodeMsg(fpu, gprotos, protos, value)) != Undefined
      modifies this, buf
      ensures buf == old(buf) && OutOk(Model())
      ensures Emits(old(Model()), Model(), ok, LengthPrefixed(EncodeMsg(fpu, gprotos, protos, value)))
      decreases value, 2
    {
      hide EncodeMsg;
      ghost var o := Model();
      ghost var e := EncodeMsg(fpu, gprotos, protos, value);
      var substream := new OStream.Sizing();
      var sized := substream.Encode(fpu, gprotos, protos, value);
      assert Model() == o;
      if !sized {
        return false;
      }
      var size := substream.bytesWritten;
      assert size == |e.bytes|;
      ok := EncodeVarint(size);
      if !ok {
        EmitsFails(o, Model(), Done(Varint(size)), e);
        return;
      }
      ghost var p := Model();
      if buf == null {
        ok := Skip(e.bytes, size);
        EmitsThen(o, p, Model(), ok, Done(Varint(size)), e);
        return;
      }
      if bytesWritten + size > maxSize {
        EmitsThen(o, p, p, false, Done(Varint(size)), e);
        return false;
      }
      substream := new OStream.At(buf, state, size);
      ok := substream.Encode(fpu, gprotos, protos, value);
      WritePassFills(p, substream.Model(), ok, e);
      bytesWritten := bytesWritten + substream.bytesWritten;
      state := substream.state;
      EmitsThen(o, p, Model(), true, Done(Varint(size)), e);
      if substream.bytesWritten != size {
        return false;
      }
    }
  }

  /** pc_pb_encode. */
  method PbEncode(buf: array<Byte>, len: nat, fpu: Fpu, gprotos: Json, protos: Json, msg: Json)
    returns (ok: bool, written: nat)
    requires len <= buf.Length
    requires EncodeMsg(fpu, gprotos, protos, msg) != Undefined
    modifies buf
    ensures var e := EncodeMsg(fpu, gprotos, protos, msg);
            && ok == (e.Done? && |e.bytes| <= len)
            && (ok ==> written == |e.bytes| && buf[..written] == e.bytes && buf[written..] == old(buf[written..]))
    ensures buf[len..] == old(buf[len..])
  {
    hide EncodeMsg;
    var stream := new OStream.At(buf, 0, len);
    ghost var o := stream.Model();
    ok := stream.Encode(fpu, gprotos, protos, msg);
    written := stream.bytesWritten;
    if ok {
      PutStaysConfined(o, EncodeMsg(fpu, gprotos, protos, msg).bytes);
    }
    assert buf[..] == stream.Model().buf;
  }
}
