/** The protobuf decoder itself: an input stream advanced in place.  Verifying it
    shows, for any byte string and any schema, that it terminates and that every
    read stays inside the buffer. */
module PbDecoder {
  import opened Basics
  import opened JsonTree
  import opened PbDecodeSpec
  import opened PbEncodeSpec
  import Spec = PbDecodeSpec
  import opened Words

  class IStream {
    const buf: array<Byte>
    var state: nat
    var bytesLeft: nat

    ghost var view: In  // the stream as a value

    ghost predicate Valid()
      reads this, buf
    {
      && state + bytesLeft <= buf.Length
      && view == In(buf[state..], bytesLeft)
      && view.Ok()
    }

    constructor (b: array<Byte>, start: nat, size: nat)
      requires start + size <= b.Length
      ensures Valid() && buf == b && view == In(b[start..], size)
    {
      buf := b;
      state, bytesLeft := start, size;
      view := In(b[start..], size);
    }

    /** pb_read. */
    method Read(count: nat) returns (ok: bool, data: seq<Byte>)
      requires Valid()
      modifies this
      ensures Valid() && ok == (old(view.left) >= count)
      ensures ok ==> data == old(view).rest[..count] && view == old(view).Skip(count)
      ensures !ok ==> view == old(view)
    {
      if bytesLeft < count {
        return false, [];
      }
      data := buf[state..state + count];
      view := view.Skip(count);
      state := state + count;
      bytesLeft := bytesLeft - count;
      ok := true;
    }

    method DecodeVarint() returns (ok: bool, dest: nat)
      requires Valid()
      modifies this
      ensures Valid() && ReadVarint(old(view), 0, 0) == VarintResult(ok, dest, view)
    {
      var bitpos := 0;
      dest := 0;
      ok := bitpos < 64;
      while bitpos < 64
        invariant Valid()
        invariant ReadVarint(view, bitpos, dest) == ReadVarint(old(view), 0, 0)
        decreases 64 - bitpos
      {
        var got, data := Read(1);
        if !got {
          return false, dest;
        }
        var byte := data[0];
        dest := dest + (byte % 128 * Pow2(bitpos)) % U64;
        bitpos := bitpos + 7;
        if byte < 128 {
          return true, dest;
        }
      }
      ok := false;
    }

    method DecodeVarint32() returns (ok: bool, dest: nat)
      requires Valid()
      modifies this
      ensures Valid() && ReadVarint32(old(view)) == VarintResult(ok, dest, view)
    {
      ok, dest := DecodeVarint();
      if ok {
        dest := dest % U32;
      }
    }

    /** pb_decode. */
    method Decode(fpu: Fpu, gprotos: Json, protos: Json, dest: Json) returns (ok: bool, result: Json)
      requires Valid()
      requires DecodeMsg(fpu, gprotos, protos, view, dest) != Wild
      modifies this
      ensures Valid() && view.Follows(old(view))
      ensures Delivers(DecodeMsg(fpu, gprotos, protos, old(view), dest), ok, result, view)
      decreases view.left, 4
    {
      hide Spec.DecodeField, ReadVarint32;
      ghost var s := view;
      result := dest;
      while bytesLeft > 0
        invariant Valid() && view.Follows(s)
        invariant DecodeMsg(fpu, gprotos, protos, view, result) == DecodeMsg(fpu, gprotos, protos, s, dest)
        decreases view.left
      {
        var got, tag := DecodeVarint32();
        if !got {
          if bytesLeft == 0 {
            break;
          }
          return false, result;
        }
        if tag == 0 {
          return true, result;
        }
        ok, result := DecodeField(fpu, gprotos, protos, tag / 8, result);
        if !ok {
          return;
        }
      }
      ok := true;
    }

    method DecodeField(fpu: Fpu, gprotos: Json, protos: Json, number: nat, dest: Json) returns (ok: bool, result: Json)
      requires Valid()
      requires Spec.DecodeField(fpu, gprotos, protos, number, view, dest) != Wild
      modifies this
      ensures Valid() && view.Follows(old(view))
      ensures Delivers(Spec.DecodeField(fpu, gprotos, protos, number, old(view), dest), ok, result, view)
      decreases view.left, 3
    {
      hide Spec.DecodeProto, Spec.DecodeArray, Find, Digits;
      result := dest;
      var tags := GetItem(protos, "__tags");
      if tags.None? {
        return false, result;
      }
      var tag := GetItem(tags.value, Digits(number));
      if tag.None? {
        return false, result;
      }
      var name := ValueString(tag.value).value;
      var proto := GetItem(protos, name);
      if proto.None? {
        return false, result;
      }
      var option := ItemText(proto.value, "option").value;
      if option == "optional" || option == "required" {
        ok, result := DecodeProto(fpu, gprotos, proto.value, protos, Some(name), result);
      } else if option == "repeated" {
        ok, result := DecodeArray(fpu, gprotos, proto.value, protos, name, result);
      } else {
        ok := true;
      }
    }

    method DecodeArray(fpu: Fpu, gprotos: Json, proto: Json, protos: Json, key: string, dest: Json)
      returns (ok: bool, result: Json)
      requires Valid()
      requires Spec.DecodeArray(fpu, gprotos, proto, protos, key, view, dest) != Wild
      modifies this
      ensures Valid() && view.Follows(old(view))
      ensures Delivers(Spec.DecodeArray(fpu, gprotos, proto, protos, key, old(view), dest), ok, result, view)
      decreases view.left, 2
    {
      hide Spec.DecodeElements, Find, Update, Spec.In.Follows;
      result := dest;
      var t := ItemText(proto, "type").value;
      var found := GetItem(result, key);
      var list := if found.Some? then found.value else Array([]);
      ok, list := DecodeElements(fpu, gprotos, proto, protos, t, key, list);
      if ok {
        result := if found.Some? then Object(Update(result.members, key, list))
                  else Object(result.members + [Member(key, list)]);
      }
    }

    method DecodeElements(fpu: Fpu, gprotos: Json, proto: Json, protos: Json, t: string, key: string, dest: Json)
      returns (ok: bool, list: Json)
      requires Valid() && dest.Array?
      requires Spec.DecodeElements(fpu, gprotos, proto, protos, t, key, view, dest) != Wild
      modifies this
      ensures Valid() && view.Follows(old(view))
      ensures Delivers(Spec.DecodeElements(fpu, gprotos, proto, protos, t, key, old(view), dest), ok, list, view)
      decreases view.left, 1, 1
    {
      hide Delivers, Spec.DecodeElements, Spec.DecodeItems, Spec.DecodeProto, ReadVarint32, TypeOf, Packed;
      list := dest;
      if Packed(t) {
        PackedCase(fpu, gprotos, proto, protos, t, key, view, dest);
        var size;
        ok, size := DecodeVarint32();
        Deliver(list, view);
        if !ok {
          return;
        }
        ok, list := DecodeItems(fpu, gprotos, proto, protos, key, size, list);
      } else if TypeOf(t) == Text {
        TextCase(fpu, gprotos, proto, protos, t, key, view, dest);
        ok, list := DecodeProto(fpu, gprotos, proto, protos, Some(key), list);
      } else {
        MessageCase(fpu, gprotos, proto, protos, t, key, view, dest);
        var value;
        ghost var d := Spec.DecodeProto(fpu, gprotos, proto, protos, None, view, Object([]));
        ok, value := DecodeProto(fpu, gprotos, proto, protos, None, Object([]));
        Delivered(d, ok, value, view);
        if ok {
          list := Array(list.items + [value]);
        }
        Deliver(list, view);
      }
    }

    /** The counting loop of pb_decode_array. */
    method DecodeItems(fpu: Fpu, gprotos: Json, proto: Json, protos: Json, key: string, size: nat, list: Json)
      returns (ok: bool, result: Json)
      requires Valid()
      requires Spec.DecodeItems(fpu, gprotos, proto, protos, key, size, view, list) != Wild
      modifies this
      ensures Valid() && view.Follows(old(view))
      ensures Delivers(Spec.DecodeItems(fpu, gprotos, proto, protos, key, size, old(view), list), ok, result, view)
      decreases view.left, 1, 0
    {
      ghost var s := view;
      hide Spec.DecodeProto, Spec.DecodeItems;
      result := list;
      var i := 0;
      while i < size
        invariant 0 <= i <= size && Valid() && view.Follows(s)
        invariant Spec.DecodeItems(fpu, gprotos, proto, protos, key, size - i, view, result)
               == Spec.DecodeItems(fpu, gprotos, proto, protos, key, size, s, list)
      {
        ItemsCases(fpu, gprotos, proto, protos, key, size - i, view, result);
        ok, result := DecodeProto(fpu, gprotos, proto, protos, Some(key), result);
        if !ok {
          return;
        }
        i := i + 1;
      }
      ItemsCases(fpu, gprotos, proto, protos, key, 0, view, result);
      ok := true;
    }

    method DecodeProto(fpu: Fpu, gprotos: Json, proto: Json, protos: Json, key: Option<string>, dest: Json)
      returns (ok: bool, result: Json)
      requires Valid()
      requires Spec.DecodeProto(fpu, gprotos, proto, protos, key, view, dest) != Wild
      modifies this
      ensures Valid() && view.Follows(old(view))
      ensures Delivers(Spec.DecodeProto(fpu, gprotos, proto, protos, key, old(view), dest), ok, result, view)
      decreases view.left, 0, 1
    {
      hide Spec.DecodeScalar, Spec.DecodeSubmessage, Find, TypeOf;
      result := dest;
      var t := ItemText(proto, "type").value;
      if TypeOf(t) != Message {
        ok, result := DecodeScalar(fpu, TypeOf(t), key, result);
        return;
      }
      var messages := GetItem(protos, "__messages");
      if messages.None? {
        return true, result;
      }
      var sub := Resolve(gprotos, messages.value, t);
      if sub.None? {
        return false, result;
      }
      if key.None? {
        ok, result := DecodeSubmessage(fpu, gprotos, sub.value, result);
      } else {
        var value;
        ok, value := DecodeSubmessage(fpu, gprotos, sub.value, Object([]));
        if ok {
          result := Add(result, key, value);
        }
      }
    }

    method DecodeScalar(fpu: Fpu, t: FieldType, key: Option<string>, dest: Json) returns (ok: bool, result: Json)
      requires Valid() && t != Message
      requires Spec.DecodeScalar(fpu, t, key, view, dest) != Wild
      modifies this
      ensures Valid() && view.Follows(old(view))
      ensures Delivers(Spec.DecodeScalar(fpu, t, key, old(view), dest), ok, result, view)
    {
      result := dest;
      match t
      case UInt32 =>
        var value;
        ok, value := DecodeVarint();
        if ok {
          result := Add(result, key, CreateNumber(value as real));
        }
      case Int32 | SInt32 =>
        var value;
        ok, value := DecodeVarint();
        if ok {
          result := Add(result, key, CreateNumber(UnZigZag(value) as real));
        }
      case Float =>
        var bytes;
        ok, bytes := Read(4);
        if ok {
          result := Add(result, key, CreateNumber(fpu.ofSingle(bytes).value));
        }
      case Double =>
        var bytes;
        ok, bytes := Read(8);
        if ok {
          result := Add(result, key, CreateNumber(fpu.ofDouble(bytes).value));
        }
      case Text =>
        var len, bytes;
        ok, len := DecodeVarint32();
        if !ok {
          return;
        }
        ok, bytes := Read(len);
        if ok {
          result := Add(result, key, String(FromBytes(bytes)));
        }
    }

    /** pb_make_string_substream. */
    method MakeSubstream() returns (ok: bool, substream: IStream)
      requires Valid()
      modifies this
      ensures Valid() && view.Follows(old(view))
      ensures var size := ReadVarint32(old(view));
              && ok == (size.ok && size.value <= size.s.left)
              && (ok ==> fresh(substream) && substream.Valid() && substream.view == In(size.s.rest, size.value)
                         && view == In(size.s.rest, size.s.left - size.value))
      ensures ok ==> substream.buf == buf
    {
      hide ReadVarint32;
      substream := this;
      var size;
      ok, size := DecodeVarint32();
      if !ok {
        return;
      }
      if bytesLeft < size {
        return false, this;
      }
      substream := new IStream(buf, state, size);
      bytesLeft := bytesLeft - size;
      view := view.(left := bytesLeft);
    }

    /** pb_close_string_substream: only the pointer is taken over. */
    method Close(substream: IStream)
      requires Valid() && substream.Valid() && substream != this && substream.buf == buf
      requires view.left <= |substream.view.rest|
      modifies this
      ensures Valid() && view == In(substream.view.rest, old(view.left))
    {
      state := substream.state;
      view := In(substream.view.rest, bytesLeft);
    }

    method DecodeSubmessage(fpu: Fpu, gprotos: Json, protos: Json, dest: Json) returns (ok: bool, result: Json)
      requires Valid()
      requires Spec.DecodeSubmessage(fpu, gprotos, protos, view, dest) != Wild
      modifies this
      ensures Valid() && view.Follows(old(view))
      ensures Delivers(Spec.DecodeSubmessage(fpu, gprotos, protos, old(view), dest), ok, result, view)
      decreases view.left, 0, 0
    {
      hide Delivers, DecodeMsg, ReadVarint32, Spec.In.Skip, Spec.DecodeSubmessage;
      SubmessageCases(fpu, gprotos, protos, view, dest);
      result := dest;
      var made, substream := MakeSubstream();
      if !made {
        Deliver(result, view);
        return false, result;
      }
      ghost var d := DecodeMsg(fpu, gprotos, protos, substream.view, dest);
      ok, result := substream.Decode(fpu, gprotos, protos, result);
      Delivered(d, ok, result, substream.view);
      Close(substream);
      Deliver(result, view);
    }
  }

  lemma Deliver(result: Json, s: In)
    ensures Delivers(Got(result, s), true, result, s) && Delivers(Bad, false, result, s)
  {}

  lemma Delivered(d: Dec, ok: bool, result: Json, s: In)
    requires Delivers(d, ok, result, s)
    ensures if ok then d == Got(result, s) else !d.Got?
  {}

  // One unfolding of the specification each.

  lemma PackedCase(fpu: Fpu, gprotos: Json, proto: Json, protos: Json, t: string, key: string, s: In, list: Json)
    requires s.Ok() && list.Array? && Packed(t)
    ensures DecodeElements(fpu, gprotos, proto, protos, t, key, s, list) ==
            var r := ReadVarint32(s);
            if r.ok then DecodeItems(fpu, gprotos, proto, protos, key, r.value, r.s, list) else Bad
  {}

  lemma TextCase(fpu: Fpu, gprotos: Json, proto: Json, protos: Json, t: string, key: string, s: In, list: Json)
    requires s.Ok() && list.Array? && !Packed(t) && TypeOf(t) == Text
    ensures DecodeElements(fpu, gprotos, proto, protos, t, key, s, list)
         == DecodeProto(fpu, gprotos, proto, protos, Some(key), s, list)
  {}

  lemma MessageCase(fpu: Fpu, gprotos: Json, proto: Json, protos: Json, t: string, key: string, s: In, list: Json)
    requires s.Ok() && list.Array? && !Packed(t) && TypeOf(t) != Text
    ensures DecodeElements(fpu, gprotos, proto, protos, t, key, s, list) ==
            var d := DecodeProto(fpu, gprotos, proto, protos, None, s, Object([]));
            if d.Got? then Got(Array(list.items + [d.json]), d.s) else d
  {}

  lemma ItemsCases(fpu: Fpu, gprotos: Json, proto: Json, protos: Json, key: string, n: nat, s: In, list: Json)
    requires s.Ok()
    ensures DecodeItems(fpu, gprotos, proto, protos, key, n, s, list) ==
            if n == 0 then Got(list, s)
            else
              var d := DecodeProto(fpu, gprotos, proto, protos, Some(key), s, list);
              if d.Got? then DecodeItems(fpu, gprotos, proto, protos, key, n - 1, d.s, d.json) else d
  {}

  lemma SubmessageCases(fpu: Fpu, gprotos: Json, protos: Json, s: In, dest: Json)
    requires s.Ok()
    ensures DecodeSubmessage(fpu, gprotos, protos, s, dest) ==
            var size := ReadVarint32(s);
            if !size.ok || size.s.left < size.value then Bad
            else
              var d := DecodeMsg(fpu, gprotos, protos, In(size.s.rest, size.value), dest);
              if d.Got? then Got(d.json, In(d.s.rest, size.s.left - size.value)) else d
  {}

  /** What every decoding call promises: the status, and on success the tree and
      the stream. */
  ghost predicate Delivers(d: Dec, ok: bool, result: Json, s: In) {
    && ok == d.Got?
    && (ok ==> result == d.json && s == d.s)
  }

  /** pc_JSON_AddItemToObject or pc_JSON_AddItemToArray, by the type of `result`. */
  function Add(result: Json, key: Option<string>, item: Json): (r: Json)
    ensures forall s: In :: Attach(result, key, item, s) != Wild ==> Attach(result, key, item, s) == Got(r, s)
  {
    match result
    case Object(ms) => if key.Some? then Object(ms + [Member(key.value, item)]) else result
    case Array(items) => Array(items + [item])
    case _ => result
  }

  /** pc_pb_decode. */
  method PbDecode(buf: array<Byte>, len: nat, fpu: Fpu, gprotos: Json, protos: Json, dest: Json)
    returns (ok: bool, result: Json)
    requires len <= buf.Length
    requires DecodeMsg(fpu, gprotos, protos, In(buf[..], len), dest) != Wild
    ensures var d := DecodeMsg(fpu, gprotos, protos, In(buf[..], len), dest);
            ok == d.Got? && (ok ==> result == d.json)
  {
    hide DecodeMsg;
    var stream := new IStream(buf, 0, len);
    assert buf[0..] == buf[..];
    ok, result := stream.Decode(fpu, gprotos, protos, dest);
  }
}
