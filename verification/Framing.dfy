/** The package layer: a four-byte head, the type and a three-byte big-endian length, and
    a body.  The parser collects packages from whatever pieces the stream arrives in. */
module Framing {
  import opened Basics
  import opened Words

  type Bytes = seq<Byte>

  datatype Package = Package(kind: Byte, body: Bytes)

  const HEAD_BYTES := 4
  const MAX_BODY_BYTES := 0x100_0000

  function BodyLength(head: Bytes): nat
    requires |head| >= HEAD_BYTES
  {
    (head[1] as int * 0x100 + head[2] as int) * 0x100 + head[3] as int
  }

  // ---- What a stream of bytes stands for

  /** The first package is there in full. */
  predicate Complete(b: Bytes) {
    |b| >= HEAD_BYTES && |b| >= HEAD_BYTES + BodyLength(b)
  }

  function PackageSize(b: Bytes): nat
    requires Complete(b)
  {
    HEAD_BYTES + BodyLength(b)
  }

  function FirstPackage(b: Bytes): Package
    requires Complete(b)
  {
    Package(b[0], b[HEAD_BYTES..PackageSize(b)])
  }

  function Packages(b: Bytes): seq<Package> {
    if Complete(b) then [FirstPackage(b)] + Packages(b[PackageSize(b)..]) else []
  }

  /** The bytes after the last complete package. */
  function Leftover(b: Bytes): (r: Bytes)
    ensures !Complete(r)
  {
    if Complete(b) then Leftover(b[PackageSize(b)..]) else b
  }

  /** More bytes behind a stream only add packages, and only through its leftover. */
  lemma {:induction false} Continued(a: Bytes, b: Bytes)
    ensures Packages(a + b) == Packages(a) + Packages(Leftover(a) + b)
    ensures Leftover(a + b) == Leftover(Leftover(a) + b)
    decreases |a|
  {
    if Complete(a) {
      var n := PackageSize(a);
      assert (a + b)[n..] == a[n..] + b;
      assert (a + b)[HEAD_BYTES..n] == a[HEAD_BYTES..n];
      Continued(a[n..], b);
      assert [FirstPackage(a)] + (Packages(a[n..]) + Packages(Leftover(a[n..]) + b))
          == [FirstPackage(a)] + Packages(a[n..]) + Packages(Leftover(a[n..]) + b);
    } else {
      assert [] + Packages(a + b) == Packages(a + b);
    }
  }

  function Joined(chunks: seq<Bytes>): Bytes {
    if chunks == [] then [] else chunks[0] + Joined(chunks[1..])
  }

  // ---- pc_pkg_encode

  /** None for a body whose length does not fit three bytes. */
  function PkgEncode(kind: nat, data: Bytes): (r: Option<Bytes>) {
    if |data| > MAX_BODY_BYTES - 1 then None
    else Some([kind % 0x100, |data| / 0x1_0000, |data| / 0x100 % 0x100, |data| % 0x100] + data)
  }

  /** The head is the type and the length, its most significant byte first. */
  lemma HeadForm(kind: Byte, hi: Byte, mid: Byte, lo: Byte, data: Bytes, rest: Bytes)
    requires |data| == hi as int * 65536 + mid as int * 256 + lo as int
    ensures PkgEncode(kind, data) == Some([kind, hi, mid, lo] + data)
    ensures var b := [kind, hi, mid, lo] + data + rest;
            Packages(b) == [Package(kind, data)] + Packages(rest) && Leftover(b) == Leftover(rest)
  {
    hide Packages, Leftover;
    BigEndian(|data|, hi, mid, lo);
    EncodedComesFirst(kind, data, rest);
  }

  lemma BigEndian(n: nat, hi: Byte, mid: Byte, lo: Byte)
    requires n == hi as int * 65536 + mid as int * 256 + lo as int
    ensures n < 16777216 && n / 65536 == hi && n / 256 % 256 == mid && n % 256 == lo
  {
    assert n / 256 == hi as int * 256 + mid;
  }

  lemma TooLongRefused(kind: nat, data: Bytes)
    ensures PkgEncode(kind, data) == None <==> |data| >= 16777216
  {
  }

  /** An encoded package in front of a stream is its first package. */
  lemma EncodedComesFirst(kind: nat, data: Bytes, rest: Bytes)
    requires PkgEncode(kind, data).Some?
    ensures var b := PkgEncode(kind, data).value + rest;
            Packages(b) == [Package(kind % 0x100, data)] + Packages(rest) && Leftover(b) == Leftover(rest)
  {
    var b := PkgEncode(kind, data).value + rest;
    assert b[0] == kind % 0x100 && BodyLength(b) == |data|;
    assert b[HEAD_BYTES..PackageSize(b)] == data && b[PackageSize(b)..] == rest;
  }

  /** The stream the packages of `ps` make. */
  function Stream(ps: seq<Package>): Option<Bytes> {
    if ps == [] then Some([])
    else match (PkgEncode(ps[0].kind, ps[0].body), Stream(ps[1..]))
      case (Some(a), Some(b)) => Some(a + b)
      case _ => None
  }

  lemma {:induction false} StreamFits(ps: seq<Package>)
    ensures Stream(ps).Some? <==> forall p <- ps :: |p.body| < MAX_BODY_BYTES
  {
    if ps != [] {
      StreamFits(ps[1..]);
      assert ps == [ps[0]] + ps[1..];
    }
  }

  /** Packages that fit come back, all of them and in order, and nothing is left over. */
  lemma {:induction false} StreamParses(ps: seq<Package>)
    requires Stream(ps).Some?
    ensures Packages(Stream(ps).value) == ps && Leftover(Stream(ps).value) == []
  {
    hide Packages, Leftover, PkgEncode;
    if ps == [] {
      NothingParses();
    } else {
      StreamParses(ps[1..]);
      EncodedComesFirst(ps[0].kind, ps[0].body, Stream(ps[1..]).value);
      assert [ps[0]] + ps[1..] == ps;
    }
  }

  lemma NothingParses()
    ensures Packages([]) == [] && Leftover([]) == []
  {
  }

  // ---- The parser

  datatype State = InHead | InBody

  class PkgParser {
    var headBuf: array<Byte>
    var headOffset: nat
    var pkgBuf: array<Byte>
    var pkgOffset: nat
    var pkgSize: nat
    var state: State
    /** The packages given to the handler, in order. */
    var handled: seq<Package>

    ghost predicate Shape()
      reads this, headBuf, pkgBuf
    {
      && headBuf.Length == HEAD_BYTES && headBuf != pkgBuf
      && (state == InHead ==> headOffset < HEAD_BYTES)
      && (state == InBody ==>
            && headOffset == HEAD_BYTES && pkgBuf.Length == pkgSize == BodyLength(headBuf[..]) && pkgOffset <= pkgSize)
    }

    /** Between feeds a body is never complete: it would have been handled. */
    ghost predicate Valid()
      reads this, headBuf, pkgBuf
    {
      Shape() && (state == InBody ==> pkgOffset < pkgSize)
    }

    /** The bytes taken in that belong to a package not handled yet. */
    ghost function Pending(): Bytes
      requires Shape()
      reads this, headBuf, pkgBuf
    {
      if state == InHead then headBuf[..headOffset] else headBuf[..] + pkgBuf[..pkgOffset]
    }

    /** pc_pkg_parser_init. */
    constructor ()
      ensures Valid() && Pending() == [] && handled == [] && fresh(headBuf) && fresh(pkgBuf)
    {
      headBuf, pkgBuf := new Byte[HEAD_BYTES](_ => 0), new Byte[0];
      headOffset, pkgOffset, pkgSize := 0, 0, 0;
      state := InHead;
      handled := [];
    }

    /** pc_pkg_parser_reset. */
    method Reset()
      requires headBuf.Length == HEAD_BYTES
      modifies this
      ensures Valid() && Pending() == [] && fresh(pkgBuf)
      ensures headBuf == old(headBuf) && handled == old(handled)
    {
      pkgBuf := new Byte[0];
      headOffset, pkgOffset, pkgSize := 0, 0, 0;
      state := InHead;
    }

    /** pc__parse_pkg_head. */
    method ParseHead(data: Bytes, offset: nat) returns (next: nat)
      requires Valid() && state == InHead && offset < |data|
      modifies this, headBuf
      ensures Shape() && headBuf == old(headBuf) && (pkgBuf == old(pkgBuf) || fresh(pkgBuf)) && handled == old(handled)
      ensures offset < next <= |data| && Pending() == old(Pending()) + data[offset..next]
      ensures state == InHead ==> next == |data|
      ensures state == InBody ==> pkgOffset == 0
    {
      var needLen, dataLen := HEAD_BYTES - headOffset, |data| - offset;
      var len := if needLen > dataLen then dataLen else needLen;
      CopyInto(headBuf, headOffset, data[offset..offset + len]);
      headOffset := headOffset + len;
      if headOffset == HEAD_BYTES {
        var pkgLen: nat := 0;
        for i := 1 to HEAD_BYTES
          invariant pkgLen == if i == 1 then 0 else if i == 2 then headBuf[1] as int
                              else if i == 3 then headBuf[1] as int * 0x100 + headBuf[2] as int
                                   else BodyLength(headBuf[..])
        {
          pkgLen := pkgLen * 0x100 + headBuf[i] as int;
        }
        pkgBuf := new Byte[pkgLen](_ => 0);
        pkgOffset, pkgSize, state := 0, pkgLen, InBody;
      }
      next := offset + len;
    }

    /** pc__parse_pkg_body. */
    method ParseBody(data: Bytes, offset: nat) returns (next: nat)
      requires Shape() && state == InBody && offset <= |data|
      modifies this, pkgBuf
      ensures Valid() && headBuf == old(headBuf) && (pkgBuf == old(pkgBuf) || fresh(pkgBuf))
      ensures offset <= next <= |data|
      ensures old(pkgOffset) < old(pkgSize) && offset < |data| ==> offset < next
      ensures var got := old(Pending()) + data[offset..next];
              if |got| == HEAD_BYTES + BodyLength(got) then
                handled == old(handled) + [Package(got[0], got[HEAD_BYTES..])] && Pending() == []
              else |got| < HEAD_BYTES + BodyLength(got) && handled == old(handled) && Pending() == got
    {
      var needLen, dataLen := pkgSize - pkgOffset, |data| - offset;
      var len := if needLen > dataLen then dataLen else needLen;
      ghost var head := headBuf[..];
      CopyInto(pkgBuf, pkgOffset, data[offset..offset + len]);
      assert headBuf[..] == head;
      pkgOffset := pkgOffset + len;
      next := offset + len;
      ghost var got := old(Pending()) + data[offset..next];
      assert got == head + pkgBuf[..pkgOffset];
      assert BodyLength(got) == BodyLength(head);
      if pkgOffset == pkgSize {
        assert pkgBuf[..] == pkgBuf[..pkgOffset] == got[HEAD_BYTES..];
        handled := handled + [Package(headBuf[0], pkgBuf[..])];
        Reset();
      }
    }

    /** One round of the loop in pc_pkg_parser_feed. */
    method FeedRound(data: Bytes, offset: nat) returns (next: nat)
      requires Valid() && offset < |data|
      modifies this, headBuf, pkgBuf
      ensures Valid() && headBuf == old(headBuf) && (pkgBuf == old(pkgBuf) || fresh(pkgBuf))
      ensures offset < next <= |data|
      ensures After(old(Pending()), old(handled), data[offset..next])
    {
      hide Packages, Leftover;
      next := offset;
      if state == InHead {
        next := ParseHead(data, next);
      }
      ghost var mid, before := next, Pending();
      if state == InBody {
        next := ParseBody(data, next);
        assert before + data[mid..next] == old(Pending()) + data[offset..next] by {
          assert data[offset..mid] + data[mid..next] == data[offset..next];
        }
      }
      Collected(old(Pending()) + data[offset..next]);
    }

    /** What has been handled and what is pending once `data` came after `p`. */
    ghost predicate After(p: Bytes, done: seq<Package>, data: Bytes)
      requires Shape()
      reads this, headBuf, pkgBuf
    {
      handled == done + Packages(p + data) && Pending() == Leftover(p + data)
    }

    /** pc_pkg_parser_feed: the packages handled and the bytes pending are those of all
        the bytes so far. */
    method Feed(data: Bytes)
      requires Valid()
      modifies this, headBuf, pkgBuf
      ensures Valid() && headBuf == old(headBuf) && (pkgBuf == old(pkgBuf) || fresh(pkgBuf))
      ensures handled == old(handled) + Packages(old(Pending()) + data)
      ensures Pending() == Leftover(old(Pending()) + data)
    {
      hide Packages, Leftover;
      var offset := 0;
      Collected(Pending());
      assert Pending() + data[..0] == Pending();
      while offset < |data|
        invariant 0 <= offset <= |data| && Valid()
        invariant headBuf == old(headBuf) && (pkgBuf == old(pkgBuf) || fresh(pkgBuf))
        invariant After(old(Pending()), old(handled), data[..offset])
      {
        ghost var was, p, done := offset, Pending(), handled;
        offset := FeedRound(data, offset);
        Continued(old(Pending()) + data[..was], data[was..offset]);
        assert data[..was] + data[was..offset] == data[..offset];
        assert old(Pending()) + data[..was] + data[was..offset] == old(Pending()) + data[..offset];
      }
      assert data[..offset] == data;
    }
  }

  /** A stream that ends inside its first package, or with it. */
  lemma Collected(b: Bytes)
    ensures |b| < HEAD_BYTES ==> Packages(b) == [] && Leftover(b) == b
    ensures |b| >= HEAD_BYTES && |b| < HEAD_BYTES + BodyLength(b) ==> Packages(b) == [] && Leftover(b) == b
    ensures |b| >= HEAD_BYTES && |b| == HEAD_BYTES + BodyLength(b) ==>
              Packages(b) == [Package(b[0], b[HEAD_BYTES..])] && Leftover(b) == []
  {
    if Complete(b) && |b| == PackageSize(b) {
      assert b[PackageSize(b)..] == [];
      assert b[HEAD_BYTES..PackageSize(b)] == b[HEAD_BYTES..];
    }
  }

  // ---- Any cutting of the stream

  /** What a parser has handled and holds back. */
  datatype Fed = Fed(pending: Bytes, handled: seq<Package>)

  /** The effect of one feed, as the contract of Feed states it. */
  function FeedOne(f: Fed, data: Bytes): Fed {
    Fed(Leftover(f.pending + data), f.handled + Packages(f.pending + data))
  }

  function FeedMany(f: Fed, chunks: seq<Bytes>): Fed
    decreases chunks
  {
    if chunks == [] then f else FeedMany(FeedOne(f, chunks[0]), chunks[1..])
  }

  lemma {:induction false} FedTogether(f: Fed, chunks: seq<Bytes>)
    requires Leftover(f.pending) == f.pending && Packages(f.pending) == []
    ensures FeedMany(f, chunks) == FeedOne(f, Joined(chunks))
    decreases chunks
  {
    hide Packages, Leftover;
    if chunks == [] {
      assert f.pending + [] == f.pending && f.handled + [] == f.handled;
    } else {
      var a, b := f.pending + chunks[0], Joined(chunks[1..]);
      var g := FeedOne(f, chunks[0]);
      Settled(a);
      FedTogether(g, chunks[1..]);
      Continued(a, b);
      assert f.pending + (chunks[0] + b) == a + b;
      assert f.handled + Packages(a) + Packages(Leftover(a) + b)
          == f.handled + (Packages(a) + Packages(Leftover(a) + b));
    }
  }

  lemma Settled(a: Bytes)
    ensures Leftover(Leftover(a)) == Leftover(a) && Packages(Leftover(a)) == []
  {
  }

  /** Packages encoded, sent as one stream and received in any pieces: the handler sees
      exactly them, and the parser is back at the start of a head. */
  lemma AnyChunks(ps: seq<Package>, chunks: seq<Bytes>)
    requires Stream(ps) == Some(Joined(chunks))
    ensures FeedMany(Fed([], []), chunks) == Fed([], ps)
  {
    hide Packages, Leftover;
    NothingParses();
    FedTogether(Fed([], []), chunks);
    StreamParses(ps);
    assert [] + Joined(chunks) == Joined(chunks);
  }

  /** memcpy into a buffer. */
  method CopyInto(buf: array<Byte>, at: nat, src: Bytes)
    requires at + |src| <= buf.Length
    modifies buf
    ensures buf[..at + |src|] == old(buf[..at]) + src
    ensures buf[at + |src|..] == old(buf[at + |src|..])
  {
    var i := 0;
    while i < |src|
      invariant 0 <= i <= |src| && buf[..at + i] == old(buf[..at]) + src[..i]
      invariant buf[at + |src|..] == old(buf[at + |src|..])
    {
      buf[at + i] := src[i];
      assert buf[..at + i + 1] == buf[..at + i] + [src[i]];
      assert src[..i + 1] == src[..i] + [src[i]];
      i := i + 1;
    }
    assert src[..i] == src;
  }
}
