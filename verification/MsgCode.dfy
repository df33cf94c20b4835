/** Encoding a message into a buffer and decoding it, by a moving offset. */
module MsgCode {
  import opened Basics
  import opened Framing
  import opened MsgHeader
  import opened Words

  /** pc__msg_id_length. */
  method IdLength(id_: nat) returns (len: nat)
    ensures len == |Varint(id_)|
  {
    var id := id_;
    len := 1;
    id := id / 128;
    while id > 0
      invariant len + (if id > 0 then |Varint(id)| else 0) == |Varint(id_)|
      decreases id
    {
      len := len + 1;
      id := id / 128;
    }
  }

  /** `base[offset++] = v`. */
  method PutByte(base: array<Byte>, offset: nat, v: Byte) returns (next: nat)
    requires offset < base.Length
    modifies base
    ensures next == offset + 1 && base[..next] == old(base[..offset]) + [v]
  {
    base[offset] := v;
    next := offset + 1;
    assert base[..offset] == old(base[..offset]);
  }

  /** pc__msg_encode_id. */
  method PutId(base: array<Byte>, offset: nat, id_: nat) returns (next: nat)
    requires offset + |Varint(id_)| <= base.Length
    modifies base
    ensures next == offset + |Varint(id_)| && base[..next] == old(base[..offset]) + Varint(id_)
  {
    var id := id_;
    next := offset;
    var tmp, high := id % 128, id / 128;
    next := PutByte(base, next, if high != 0 then tmp + 128 else tmp);
    id := high;
    while id != 0
      invariant offset <= next && next + (if id > 0 then |Varint(id)| else 0) == offset + |Varint(id_)|
      invariant id > 0 ==> base[..next] + Varint(id) == old(base[..offset]) + Varint(id_)
      invariant id == 0 ==> base[..next] == old(base[..offset]) + Varint(id_)
      decreases id
    {
      ghost var was := base[..next];
      assert id >= 128 ==> was + Varint(id) == was + [id % 128 + 128] + Varint(id / 128);
      tmp, high := id % 128, id / 128;
      next := PutByte(base, next, if high != 0 then tmp + 128 else tmp);
      id := high;
    }
  }

  lemma Seam(flag: Bytes, ids: Bytes, a: Bytes, b: Bytes, body: Bytes)
    ensures flag + ids + (a + b) + body == flag + ids + a + b + body
    ensures flag + [] == flag
  {
  }

  /** pc_msg_encode_route, for the two kinds a client sends. */
  method EncodeRouteMsg(id: nat, kind: nat, route: Bytes, msg: Bytes) returns (base: array<Byte>)
    requires kind == REQUEST || kind == NOTIFY
    ensures fresh(base) && base[..] == EncodeRoute(id, kind, route, msg)
  {
    hide Varint;
    var idLen := 0;
    if HasId(kind) {
      idLen := IdLength(id);
    }
    var routeLen := |route| % 0x1_0000;
    base := new Byte[1 + idLen + 1 + routeLen + |msg|](_ => 0);
    var offset := PutByte(base, 0, kind * 2);
    if HasId(kind) {
      offset := PutId(base, offset, id);
    }
    offset := PutByte(base, offset, routeLen % 0x100);
    offset := PutAll(base, offset, route[..routeLen]);
    offset := PutAll(base, offset, msg);
    Seam([kind * 2], if HasId(kind) then Varint(id) else [], [routeLen % 0x100], route[..routeLen], msg);
    assert base[..] == base[..offset];
  }

  /** pc_msg_encode_code, for the two kinds a client sends. */
  method EncodeCodeMsg(id: nat, kind: nat, routeCode: int, body: Bytes) returns (base: array<Byte>)
    requires kind == REQUEST || kind == NOTIFY
    ensures fresh(base) && base[..] == EncodeCode(id, kind, routeCode, body)
  {
    hide Varint;
    var idLen := 0;
    if HasId(kind) {
      idLen := IdLength(id);
    }
    base := new Byte[1 + idLen + 2 + |body|](_ => 0);
    var offset := PutByte(base, 0, kind * 2 + 1);
    if HasId(kind) {
      offset := PutId(base, offset, id);
    }
    offset := PutByte(base, offset, routeCode / 0x100 % 0x100);
    offset := PutByte(base, offset, routeCode % 0x100);
    offset := PutAll(base, offset, body);
    Seam([kind * 2 + 1], if HasId(kind) then Varint(id) else [],
         [routeCode / 0x100 % 0x100], [routeCode % 0x100], body);
    assert base[..] == base[..offset];
  }

  /** `memcpy(base + offset, src, len); offset += len`. */
  method PutAll(base: array<Byte>, offset: nat, src: Bytes) returns (next: nat)
    requires offset + |src| <= base.Length
    modifies base
    ensures next == offset + |src| && base[..next] == old(base[..offset]) + src
  {
    CopyInto(base, offset, src);
    next := offset + |src|;
  }

  /** The varint loop of pc_msg_decode_to_raw. */
  method TakeId(data: Bytes, offset_: nat) returns (ok: bool, id: nat, offset: nat)
    requires offset_ <= |data|
    ensures ok <==> ReadId(0, 0, data[offset_..]).Some?
    ensures ok ==> offset <= |data| && ReadId(0, 0, data[offset_..]) == Some((id, data[offset..]))
  {
    ok, id, offset := true, 0, offset_;
    var i: nat := 0;
    var m: Byte := 128;
    while m >= 128
      invariant offset_ <= offset <= |data|
      invariant m >= 128 ==> ReadId(id, i, data[offset..]) == ReadId(0, 0, data[offset_..])
      invariant m < 128 ==> ReadId(0, 0, data[offset_..]) == Some((id, data[offset..]))
      decreases m >= 128, |data| - offset
    {
      if offset >= |data| {
        return false, id, offset;
      }
      assert data[offset..][1..] == data[offset + 1..];
      m := data[offset];
      offset := offset + 1;
      id := (id + m % 128 * Pow2(7 * i)) % U32;
      i := i + 1;
    }
  }

  /** The route part of pc_msg_decode_to_raw. */
  method TakeRoute(data: Bytes, offset_: nat, compressed: bool) returns (r: Rest, offset: nat)
    requires offset_ <= |data| < 0x8000_0000
    ensures r == ReadRoute(compressed, offset_, data[offset_..])
    ensures r.Found? ==> offset <= |data| && r.body == data[offset..]
  {
    offset := offset_;
    if compressed {
      if offset + 2 - 1 < |data| {
        var code := data[offset] as int * 0x100 + data[offset + 1] as int;
        offset := offset + 2;
        return Found(Code(code), data[offset..]), offset;
      }
      return Short, offset;
    }
    if offset + 1 - 1 < |data| {
      var routeLen := CharToSize(data[offset]);
      offset := offset + 1;
      Wraps(offset, data[offset - 1], |data|);
      if (offset + routeLen - 1) % U64 < |data| {
        if routeLen >= U64 / 2 {
          return Outside, offset;
        }
        var text := data[offset..offset + routeLen];
        offset := offset + routeLen;
        ghost var b := data[offset_..];
        assert b[0] as int == routeLen && text == b[1..1 + routeLen] && data[offset..] == b[1 + routeLen..];
        return Found(Text(text), data[offset..]), offset;
      }
    }
    return Short, offset;
  }

  /** pc_msg_decode_to_raw; the length of a buffer is a C int. */
  method DecodeToRaw(data: Bytes) returns (r: Outcome)
    requires |data| < 0x8000_0000
    ensures r == Decode(data)
  {
    hide ReadId, ReadRoute;
    if |data| < 1 {
      return Refused;
    }
    var offset: nat := 1;
    var flag := data[0];
    var kind, compressed := flag / 2, flag % 2 == 1;
    if kind > PUSH {
      return Refused;
    }
    var id: nat := NOTIFY_PUSH_REQ_ID;
    if HasId(kind) {
      var ok;
      ok, id, offset := TakeId(data, offset);
      if !ok {
        return Refused;
      }
    }
    assert |data| - |data[offset..]| == offset;
    var route := Found(if compressed then Code(0) else NoRoute, data[offset..]);
    if HasRoute(kind) {
      route, offset := TakeRoute(data, offset, compressed);
      match route
      case Short => return Refused;
      case Outside => return Wild;
      case Found(_, _) =>
    }
    if id == INVALID_REQ_ID {
      return Aborted;
    }
    r := Got(Raw(id, kind, compressed, route.route, data[offset..]));
  }

  /** A plain char widened to size_t: negative from 128 on. */
  function CharToSize(b: Byte): nat {
    if b >= 128 then U64 - 0x100 + b else b
  }

  /** What the size_t bounds test comes to. */
  lemma Wraps(offset: nat, b: Byte, len: nat)
    requires 1 <= offset <= len < 0x8000_0000
    ensures b < 128 ==> ((offset + CharToSize(b) - 1) % U64 < len <==> b <= len - offset)
    ensures b >= 128 ==> ((offset + CharToSize(b) - 1) % U64 < len <==> offset + b - 0x100 >= 1)
  {
    if b >= 128 {
      var x := offset + b - 0x100 - 1;
      assert offset + CharToSize(b) - 1 == U64 + x;
      assert x < 0 ==> (U64 + x) % U64 == U64 + x;
      assert x >= 0 ==> (U64 + x) % U64 == x;
    }
  }
}
