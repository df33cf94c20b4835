/** The texts of JSON said without the parser (RFC 8259), every spelling of a tree, and
    what the parser makes of each. */
module JsonGrammar {
  import opened Basics
  import opened JsonRoundTrip
  import opened JsonText
  import opened JsonTree
  import opened Numerals

  // ---- Code points as UTF-8

  /** The six bits of a byte that follows a first byte. */
  function Six(c: char): Option<nat> {
    if 0x80 <= c as int < 0xC0 then Some(c as int - 0x80) else None
  }

  /** The code point that octets stand for, by the table in section 3 of RFC 3629. */
  function CodePoint(b: string): Option<nat> {
    if |b| == 1 && b[0] as int < 0x80 then Some(b[0] as int)
    else if |b| == 2 && 0xC0 <= b[0] as int < 0xE0 then
      match Six(b[1])
      case Some(x) => InRange((b[0] as int - 0xC0) * 0x40 + x, 0x80, 0x800)
      case None => None
    else if |b| == 3 && 0xE0 <= b[0] as int < 0xF0 then
      match (Six(b[1]), Six(b[2]))
      case (Some(x), Some(y)) => InRange((b[0] as int - 0xE0) * 0x1000 + x * 0x40 + y, 0x800, 0x1_0000)
      case _ => None
    else if |b| == 4 && 0xF0 <= b[0] as int < 0xF8 then
      match (Six(b[1]), Six(b[2]), Six(b[3]))
      case (Some(x), Some(y), Some(z)) =>
        InRange((b[0] as int - 0xF0) * 0x4_0000 + x * 0x1000 + y * 0x40 + z, 0x1_0000, 0x11_0000)
      case _ => None
    else None
  }

  function InRange(cp: nat, low: nat, high: nat): Option<nat> {
    if low <= cp < high then Some(cp) else None
  }

  lemma Bits2(a: nat, x: nat, cp: nat)
    requires x < 0x40
    ensures cp == a * 0x40 + x <==> cp / 0x40 == a && cp % 0x40 == x
  {
  }

  lemma Bits3(a: nat, x: nat, y: nat, cp: nat)
    requires x < 0x40 && y < 0x40
    ensures cp == a * 0x1000 + x * 0x40 + y <==> cp / 0x1000 == a && cp / 0x40 % 0x40 == x && cp % 0x40 == y
  {
    Bits2(a * 0x40 + x, y, cp);
    Bits2(a, x, cp / 0x40);
    assert cp / 0x40 / 0x40 == cp / 0x1000;
  }

  lemma Bits4(a: nat, x: nat, y: nat, z: nat, cp: nat)
    requires x < 0x40 && y < 0x40 && z < 0x40
    ensures cp == a * 0x4_0000 + x * 0x1000 + y * 0x40 + z
       <==> cp / 0x4_0000 == a && cp / 0x1000 % 0x40 == x && cp / 0x40 % 0x40 == y && cp % 0x40 == z
  {
    Bits3(a * 0x40 + x, y, z, cp);
    Bits2(a, x, cp / 0x1000);
    assert cp / 0x1000 / 0x40 == cp / 0x4_0000;
  }

  /** The parser writes the octets of a code point and no others. */
  lemma Utf8Iff(cp: nat, b: string)
    requires cp < 0x11_0000
    ensures CodePoint(b) == Some(cp) <==> b == Utf8(cp)
  {
    if cp < 0x80 {
      Octets1(cp, b);
    } else if cp < 0x800 {
      Octets2(cp, b);
    } else if cp < 0x1_0000 {
      Octets3(cp, b);
    } else {
      Octets4(cp, b);
    }
  }

  lemma Octets1(cp: nat, b: string)
    requires cp < 0x80
    ensures CodePoint(b) == Some(cp) <==> b == Utf8(cp)
  {
    if |b| == 1 {
      assert b == [b[0]];
    }
  }

  lemma Octets2(cp: nat, b: string)
    requires 0x80 <= cp < 0x800
    ensures CodePoint(b) == Some(cp) <==> b == Utf8(cp)
  {
    if |b| == 2 {
      assert b == [b[0], b[1]];
      if b[0] as int >= 0xC0 && 0x80 <= b[1] as int < 0xC0 {
        Bits2(b[0] as int - 0xC0, b[1] as int - 0x80, cp);
      }
    }
  }

  lemma Octets3(cp: nat, b: string)
    requires 0x800 <= cp < 0x1_0000
    ensures CodePoint(b) == Some(cp) <==> b == Utf8(cp)
  {
    if |b| == 3 {
      assert b == [b[0], b[1], b[2]];
      if b[0] as int >= 0xE0 && Six(b[1]).Some? && Six(b[2]).Some? {
        Bits3(b[0] as int - 0xE0, b[1] as int - 0x80, b[2] as int - 0x80, cp);
      }
    }
  }

  lemma Octets4(cp: nat, b: string)
    requires 0x1_0000 <= cp < 0x11_0000
    ensures CodePoint(b) == Some(cp) <==> b == Utf8(cp)
  {
    if |b| == 4 {
      assert b == [b[0], b[1], b[2], b[3]];
      if b[0] as int >= 0xF0 && Six(b[1]).Some? && Six(b[2]).Some? && Six(b[3]).Some? {
        Bits4(b[0] as int - 0xF0, b[1] as int - 0x80, b[2] as int - 0x80, b[3] as int - 0x80, cp);
      }
    }
  }

  // ---- Strings

  /** A piece of a string's inside, and the bytes it stands for. */
  datatype Piece = Piece(text: string, bytes: string)

  /** `\u` and four hexadecimal digits of either case. */
  predicate IsUnit(t: string, u: nat) {
    |t| == 6 && t[0] == '\\' && t[1] == 'u' && HexNumber(t[2..], u)
  }

  predicate IsPlain(p: Piece) {
    |p.text| == 1 && p.text[0] != '\"' && p.text[0] != '\\' && p.bytes == p.text
  }

  predicate IsShort(p: Piece) {
    || p == Piece("\\\"", "\"")
    || p == Piece("\\\\", "\\")
    || p == Piece("\\/", "/")
    || p == Piece("\\b", ['\U{8}'])
    || p == Piece("\\f", ['\U{C}'])
    || p == Piece("\\n", ['\U{A}'])
    || p == Piece("\\r", ['\U{D}'])
    || p == Piece("\\t", ['\U{9}'])
  }

  /** A code point up to 0xFFFF, the terminator and the surrogates excepted. */
  ghost predicate IsEscaped(p: Piece) {
    exists u: nat :: IsUnit(p.text, u) && 0 < u && !(0xD800 <= u < 0xE000) && CodePoint(p.bytes) == Some(u)
  }

  /** A code point beyond, as a pair of surrogates. */
  ghost predicate IsPair(p: Piece) {
    && |p.text| == 12
    && exists hi: nat, lo: nat ::
         && IsUnit(p.text[..6], hi) && IsUnit(p.text[6..], lo)
         && 0xD800 <= hi < 0xDC00 && 0xDC00 <= lo < 0xE000
         && CodePoint(p.bytes) == Some(0x1_0000 + (hi - 0xD800) * 0x400 + (lo - 0xDC00))
  }

  ghost predicate Legal(p: Piece) {
    IsPlain(p) || IsShort(p) || IsEscaped(p) || IsPair(p)
  }

  function Texts(ps: seq<Piece>): string {
    if ps == [] then "" else ps[0].text + Texts(ps[1..])
  }

  function Bytes(ps: seq<Piece>): string {
    if ps == [] then "" else ps[0].bytes + Bytes(ps[1..])
  }

  lemma HexValueForm(c: char, d: nat)
    ensures HexForm(c, d) <==> HexValue(c) == Some(d)
  {
  }

  /** Four digits are read as their number. */
  lemma Hex4Form(h: string, u: nat, t: string)
    requires |h| == 4 && HexNumber(h, u)
    ensures Hex4(h + t) == Some(u) && (h + t)[4..] == t
  {
    hide HexForm, HexValue;
    var s := h + t;
    assert s[0] == h[0] && s[1] == h[1] && s[2] == h[2] && s[3] == h[3];
    assert h[..3][..2] == h[..2] && h[..2][..1] == h[..1] && h[..1][..0] == "";
    HexValueForm(h[3], u % 16);
    HexValueForm(h[2], u / 16 % 16);
    HexValueForm(h[1], u / 16 / 16 % 16);
    HexValueForm(h[0], u / 16 / 16 / 16 % 16);
    assert HexNumber(h[..3], u / 16);
    assert HexNumber(h[..2], u / 16 / 16);
    assert HexNumber(h[..1], u / 16 / 16 / 16);
    assert HexNumber("", u / 16 / 16 / 16 / 16);
  }

  lemma UnitForm(p: string, u: nat, t: string)
    requires IsUnit(p, u)
    ensures p != "" && p[0] == '\\'
    ensures var s := p + t;
            s[0] == '\\' && s[1..] == ['u'] + (p[2..] + t) && Hex4(p[2..] + t) == Some(u) && (p[2..] + t)[4..] == t
  {
    hide HexNumber;
    Hex4Form(p[2..], u, t);
    assert p == [p[0], p[1]] + p[2..];
  }

  lemma EscapedParses(p: Piece, t: string)
    requires IsEscaped(p)
    ensures p.text != "" && p.text[0] == '\\' && ParseEscape((p.text + t)[1..]) == Done(p.bytes, t)
  {
    hide HexNumber, CodePoint, Utf8, Hex4;
    var u: nat :| IsUnit(p.text, u) && 0 < u && !(0xD800 <= u < 0xE000) && CodePoint(p.bytes) == Some(u);
    UnitForm(p.text, u, t);
    HexFits(p.text[2..], u);
    Utf8Iff(u, p.bytes);
    assert (['u'] + (p.text[2..] + t))[1..] == p.text[2..] + t;
  }

  lemma HexFits(h: string, u: nat)
    requires |h| == 4 && HexNumber(h, u)
    ensures u < 0x1_0000
  {
    HexBound(h, u, 4);
  }

  lemma PairParses(p: Piece, t: string)
    requires IsPair(p)
    ensures p.text != "" && p.text[0] == '\\' && ParseEscape((p.text + t)[1..]) == Done(p.bytes, t)
  {
    hide HexNumber, CodePoint, Utf8, Hex4, IsUnit;
    var hi: nat, lo: nat :|
      && IsUnit(p.text[..6], hi) && IsUnit(p.text[6..], lo)
      && 0xD800 <= hi < 0xDC00 && 0xDC00 <= lo < 0xE000
      && CodePoint(p.bytes) == Some(0x1_0000 + (hi - 0xD800) * 0x400 + (lo - 0xDC00));
    var a, b := p.text[..6], p.text[6..];
    assert p.text + t == a + (b + t);
    UnitForm(a, hi, b + t);
    UnitForm(b, lo, t);
    SecondUnit(b, t);
    Utf8Iff(0x1_0000 + (hi - 0xD800) * 0x400 + (lo - 0xDC00), p.bytes);
    assert hi % 0x400 == hi - 0xD800 && lo % 0x400 == lo - 0xDC00;
    assert (['u'] + (a[2..] + (b + t)))[1..] == a[2..] + (b + t);
  }

  lemma SecondUnit(b: string, t: string)
    requires |b| == 6 && (b + t)[1..] == ['u'] + (b[2..] + t) && (b + t)[0] == '\\'
    ensures StartsWith(b + t, ['\\', 'u']) && (b + t)[2..] == b[2..] + t && (b + t)[6..] == t
  {
  }

  /** A backslash and any character but `u`: the letters of the table as there, any other
      one as itself. */
  predicate AnyShort(p: Piece) {
    && |p.text| == 2 && p.text[0] == '\\' && p.text[1] != 'u'
    && (IsShort(p) || (p.text[1] !in "\"\\/bfnrt" && p.bytes == [p.text[1]]))
  }

  /** A code point that does not exist stands for nothing: 0, half a pair, or a pair with the
      wrong second half. */
  ghost predicate Dropped(p: Piece, next: string) {
    && p.bytes == ""
    && (OneDropped(p.text, next) || TwoDropped(p.text))
  }

  ghost predicate OneDropped(t: string, next: string) {
    exists u: nat ::
      IsUnit(t, u) && (u == 0 || 0xDC00 <= u < 0xE000 || (0xD800 <= u < 0xDC00 && !StartsWith(next, "\\u")))
  }

  ghost predicate TwoDropped(t: string) {
    && |t| == 12
    && exists hi: nat, lo: nat ::
         IsUnit(t[..6], hi) && IsUnit(t[6..], lo) && 0xD800 <= hi < 0xDC00 && !(0xDC00 <= lo < 0xE000)
  }

  /** What the parser takes for a piece in front of `next`. */
  ghost predicate Accepted(p: Piece, next: string) {
    IsPlain(p) || AnyShort(p) || IsEscaped(p) || IsPair(p) || Dropped(p, next)
  }

  ghost predicate AllAccepted(ps: seq<Piece>, next: string) {
    ps != [] ==> Accepted(ps[0], Texts(ps[1..]) + next) && AllAccepted(ps[1..], next)
  }

  lemma {:induction false} LegalAccepted(ps: seq<Piece>, next: string)
    requires forall p <- ps :: Legal(p)
    ensures AllAccepted(ps, next)
  {
    hide IsEscaped, IsPair, IsPlain;
    if ps != [] {
      LegalAccepted(ps[1..], next);
      assert Legal(ps[0]);
    }
  }

  lemma ShortParses(p: Piece, t: string)
    requires AnyShort(p)
    ensures ParseEscape((p.text + t)[1..]) == Done(p.bytes, t)
  {
    assert (p.text + t)[1..] == [p.text[1]] + t;
    assert ([p.text[1]] + t)[1..] == t;
    assert p.text == ['\\', p.text[1]];
    var c := p.text[1];
    assert !IsShort(p) ==> c != 'b' && c != 'f' && c != 'n' && c != 'r' && c != 't';
  }

  lemma DroppedParses(p: Piece, t: string)
    requires Dropped(p, t)
    ensures p.text != "" && p.text[0] == '\\' && p.bytes == ""
    ensures ParseEscape((p.text + t)[1..]) == Done("", t)
  {
    hide HexNumber, Hex4, Utf8, IsUnit;
    if OneDropped(p.text, t) {
      var u: nat :|
        IsUnit(p.text, u) && (u == 0 || 0xDC00 <= u < 0xE000 || (0xD800 <= u < 0xDC00 && !StartsWith(t, "\\u")));
      UnitForm(p.text, u, t);
      assert (['u'] + (p.text[2..] + t))[1..] == p.text[2..] + t;
    } else {
      var hi: nat, lo: nat :|
        IsUnit(p.text[..6], hi) && IsUnit(p.text[6..], lo) && 0xD800 <= hi < 0xDC00 && !(0xDC00 <= lo < 0xE000);
      var a, b := p.text[..6], p.text[6..];
      assert p.text + t == a + (b + t);
      UnitForm(a, hi, b + t);
      UnitForm(b, lo, t);
      SecondUnit(b, t);
      assert (['u'] + (a[2..] + (b + t)))[1..] == a[2..] + (b + t);
    }
  }

  lemma PieceParses(p: Piece, t: string, cs: string, rest: string)
    requires Accepted(p, t) && ParseChars(t) == Done(cs, rest)
    ensures ParseChars(p.text + t) == Done(p.bytes + cs, rest)
  {
    hide ParseEscape, IsShort, IsEscaped, IsPair, Dropped;
    var s := p.text + t;
    if IsPlain(p) {
      assert s[0] == p.text[0] && s[1..] == t && [s[0]] == p.bytes;
    } else if AnyShort(p) {
      ShortParses(p, t);
    } else if IsEscaped(p) {
      EscapedParses(p, t);
    } else if IsPair(p) {
      PairParses(p, t);
    } else {
      DroppedParses(p, t);
    }
  }

  lemma {:induction false} PiecesParse(ps: seq<Piece>, end: string, rest: string)
    requires AllAccepted(ps, end) && ParseChars(end) == Done("", rest)
    ensures ParseChars(Texts(ps) + end) == Done(Bytes(ps), rest)
  {
    hide ParseChars, Accepted;
    if ps == [] {
      assert "" + end == end;
    } else {
      PiecesParse(ps[1..], end, rest);
      assert ps[0].text + Texts(ps[1..]) + end == ps[0].text + (Texts(ps[1..]) + end);
      PieceParses(ps[0], Texts(ps[1..]) + end, Bytes(ps[1..]), rest);
    }
  }

  /** A string as it is written; the parser also takes the end of the text for its closing
      quote. */
  function QuotedText(ps: seq<Piece>, closed: bool): string {
    ['\"'] + Texts(ps) + if closed then ['\"'] else []
  }

  ghost predicate AcceptsString(ps: seq<Piece>, closed: bool, rest: string) {
    AllAccepted(ps, (if closed then ['\"'] else []) + rest) && (!closed ==> rest == "")
  }

  lemma StringReads(ps: seq<Piece>, closed: bool, rest: string)
    requires AcceptsString(ps, closed, rest)
    ensures ParseString(QuotedText(ps, closed) + rest) == Done(Bytes(ps), rest)
    ensures (QuotedText(ps, closed) + rest)[0] == '\"'
  {
    hide ParseChars, AllAccepted, Texts;
    var end := (if closed then ['\"'] else []) + rest;
    CharsEnd(closed, rest);
    PiecesParse(ps, end, rest);
    var s := QuotedText(ps, closed) + rest;
    assert s[1..] == Texts(ps) + end;
  }

  lemma CharsEnd(closed: bool, rest: string)
    requires !closed ==> rest == ""
    ensures ParseChars((if closed then ['\"'] else []) + rest) == Done("", rest)
  {
    if closed {
      CharsQuote(rest);
    } else {
      assert [] + rest == "";
    }
  }

  /** A string in any legal spelling is read as the bytes it stands for. */
  lemma LegalStringReads(ps: seq<Piece>, rest: string)
    requires forall p <- ps :: Legal(p)
    ensures ParseString(['\"'] + Texts(ps) + ['\"'] + rest) == Done(Bytes(ps), rest)
  {
    hide AllAccepted, Texts, ParseString, Legal;
    LegalAccepted(ps, ['\"'] + rest);
    StringReads(ps, true, rest);
  }

  // ---- Every string that is read

  lemma Hex4Sound(s: string)
    requires Hex4(s).Some?
    ensures HexNumber(s[..4], Hex4(s).value)
  {
    hide HexForm, HexNumber;
    var a, b := HexValue(s[0]).value, HexValue(s[1]).value;
    var c, d := HexValue(s[2]).value, HexValue(s[3]).value;
    HexValueForm(s[0], a);
    HexValueForm(s[1], b);
    HexValueForm(s[2], c);
    HexValueForm(s[3], d);
    NoHexDigits();
    HexGrows("", 0, s[0], a);
    HexGrows("" + [s[0]], a, s[1], b);
    HexGrows("" + [s[0]] + [s[1]], a * 16 + b, s[2], c);
    HexGrows("" + [s[0]] + [s[1]] + [s[2]], (a * 16 + b) * 16 + c, s[3], d);
    assert s[..4] == "" + [s[0]] + [s[1]] + [s[2]] + [s[3]];
  }

  lemma NoHexDigits()
    ensures HexNumber("", 0)
  {
  }

  /** What an escape was read from. */
  lemma EscapeSound(s: string) returns (p: Piece, t: string)
    requires s != "" && s[0] == '\\' && ParseEscape(s[1..]).Done?
    ensures s == p.text + t && p.text != "" && ParseEscape(s[1..]) == Done(p.bytes, t) && Accepted(p, t)
  {
    hide Dropped, IsEscaped, IsPair, Hex4, HexNumber, Utf8;
    assert s[1..][1..] == s[2..] && s == s[..2] + s[2..];
    if s[1] == 'u' {
      p, t := UnicodeSound(s);
    } else {
      t := s[2..];
      p := Piece(s[..2], ParseEscape(s[1..]).value);
      assert s[..2] == [s[0], s[1]];
    }
  }

  lemma UnicodeSound(s: string) returns (p: Piece, t: string)
    requires |s| >= 2 && s[0] == '\\' && s[1] == 'u' && ParseUnicode(s[2..]).Done?
    ensures s == p.text + t && p.text != "" && ParseUnicode(s[2..]) == Done(p.bytes, t)
    ensures IsEscaped(p) || IsPair(p) || Dropped(p, t)
  {
    hide Hex4, HexNumber, Utf8, CodePoint;
    var r := ParseUnicode(s[2..]);
    p, t := Piece(s[..|s| - |r.rest|], r.value), r.rest;
    var u := Hex4(s[2..]).value;
    Hex4Sound(s[2..]);
    UnitSound(s, u);
    var after := s[2..][4..];
    assert after == s[6..];
    if !(0xD800 <= u < 0xDC00) {
      assert t == s[6..] && p.text == s[..6];
      if (u != 0 && u < 0xDC00) || u >= 0xE000 {
        Utf8Iff(u, r.value);
        assert IsUnit(p.text, u);
      } else {
        assert OneDropped(p.text, t);
      }
    } else if !StartsWith(after, ['\\', 'u']) {
      assert t == s[6..] && p.text == s[..6];
      assert OneDropped(p.text, t);
    } else {
      p, t := PairSound(s, u);
    }
  }

  lemma UnitSound(s: string, u: nat)
    requires |s| >= 6 && s[0] == '\\' && s[1] == 'u' && HexNumber(s[2..][..4], u)
    ensures IsUnit(s[..6], u) && s == s[..6] + s[6..]
  {
    hide HexNumber;
    assert s[..6][2..] == s[2..][..4];
  }

  lemma PairSound(s: string, u: nat) returns (p: Piece, t: string)
    requires |s| >= 6 && s[0] == '\\' && s[1] == 'u' && ParseUnicode(s[2..]).Done?
    requires Hex4(s[2..]) == Some(u) && 0xD800 <= u < 0xDC00 && StartsWith(s[6..], ['\\', 'u'])
    ensures s == p.text + t && p.text != "" && ParseUnicode(s[2..]) == Done(p.bytes, t)
    ensures IsPair(p) || Dropped(p, t)
  {
    hide Hex4, HexNumber, Utf8, CodePoint;
    assert s[2..][4..] == s[6..] && s[6..][2..] == s[8..];
    var v := Hex4(s[8..]).value;
    Hex4Sound(s[2..]);
    Hex4Sound(s[8..]);
    UnitSound(s, u);
    assert s[6..][2..][..4] == s[8..][..4];
    UnitSound(s[6..], v);
    assert s[6..][6..] == s[12..];
    t := s[12..];
    p := Piece(s[..12], ParseUnicode(s[2..]).value);
    assert p.text[..6] == s[..6] && p.text[6..] == s[6..][..6];
    if 0xDC00 <= v < 0xE000 {
      var cp := 0x1_0000 + (u - 0xD800) * 0x400 + (v - 0xDC00);
      assert u % 0x400 == u - 0xD800 && v % 0x400 == v - 0xDC00;
      Utf8Iff(cp, p.bytes);
    } else {
      assert TwoDropped(p.text);
    }
  }

  lemma {:induction false} CharsSound(s: string) returns (ps: seq<Piece>, closed: bool)
    requires ParseChars(s).Done?
    ensures var r := ParseChars(s);
            && s == Texts(ps) + ((if closed then ['\"'] else []) + r.rest) && r.value == Bytes(ps)
            && AcceptsString(ps, closed, r.rest)
    decreases |s|
  {
    hide ParseEscape, Accepted;
    if s == "" {
      ps, closed := [], false;
    } else if s[0] == '\"' {
      ps, closed := [], true;
    } else {
      var p, t := PieceSound(s);
      ps, closed := CharsSound(t);
      var end := (if closed then ['\"'] else []) + ParseChars(s).rest;
      assert ([p] + ps)[1..] == ps;
      assert p.text + Texts(ps) + end == p.text + (Texts(ps) + end);
      ps := [p] + ps;
    }
  }

  lemma PieceSound(s: string) returns (p: Piece, t: string)
    requires ParseChars(s).Done? && s != "" && s[0] != '\"'
    ensures s == p.text + t && |t| < |s| && ParseChars(t).Done? && Accepted(p, t)
    ensures ParseChars(s) == Done(p.bytes + ParseChars(t).value, ParseChars(t).rest)
  {
    hide ParseEscape, AnyShort, IsEscaped, IsPair, Dropped;
    if s[0] == '\\' {
      p, t := EscapeSound(s);
    } else {
      p, t := Piece([s[0]], [s[0]]), s[1..];
    }
  }

  /** Every string the parser reads has an accepted spelling, and stands for its bytes. */
  lemma StringSound(s: string) returns (ps: seq<Piece>, closed: bool)
    requires ParseString(s).Done?
    ensures var r := ParseString(s);
            s == QuotedText(ps, closed) + r.rest && r.value == Bytes(ps) && AcceptsString(ps, closed, r.rest)
  {
    hide ParseChars, AcceptsString, Texts, Bytes;
    ps, closed := CharsSound(s[1..]);
    var end := if closed then ['\"'] else [];
    var rest := ParseString(s).rest;
    assert s == ['\"'] + s[1..];
    assert ['\"'] + (Texts(ps) + (end + rest)) == ['\"'] + Texts(ps) + end + rest;
  }

  // ---- Numbers

  /** A number as section 6 of RFC 8259 writes it: whole part, fraction, power of ten. */
  datatype Numeral = Numeral(minus: bool, whole: string, frac: string, power: Option<Power>)
  datatype Power = Power(mark: char, sign: string, digits: string)

  function NumeralText(n: Numeral): string {
    (if n.minus then "-" else "") + (n.whole + (FractionText(n.frac) + PowerText(n.power)))
  }

  function FractionText(frac: string): string {
    if frac == "" then "" else "." + frac
  }

  function PowerText(p: Option<Power>): string {
    match p
    case None => ""
    case Some(w) => [w.mark] + (w.sign + w.digits)
  }

  /** Well formed, with `v` for the digits before and behind the point and `x` for those of
      the power. */
  predicate LegalNumeral(n: Numeral, v: nat, x: nat) {
    && n.whole != "" && (n.whole[0] == '0' ==> n.whole == "0") && DecNumber(n.whole + n.frac, v)
    && match n.power
       case None => x == 0
       case Some(w) => w.mark in "eE" && w.sign in {"", "+", "-"} && w.digits != "" && DecNumber(w.digits, x)
  }

  /** What the parser takes for a power in front of `rest`: its digits may be missing. */
  predicate AcceptsPower(p: Option<Power>, x: nat, rest: string) {
    match p
    case None => x == 0 && Front(rest) != 'e' && Front(rest) != 'E'
    case Some(w) =>
      && (w.mark == 'e' || w.mark == 'E') && w.sign in {"", "+", "-"} && DecNumber(w.digits, x)
      && !IsDigit(Front(rest)) && (w.sign == "" && w.digits == "" ==> Front(rest) != '+' && Front(rest) != '-')
  }

  /** A whole part in front of `t`: it may be missing behind a minus, and one leading zero is
      passed over. */
  predicate AcceptsWhole(whole: string, t: string) {
    && (forall i :: 0 <= i < |whole| ==> IsDigit(whole[i]))
    && (|whole| >= 2 && whole[0] == '0' ==> whole[1] != '0')
    && (IsDigit(Front(t)) ==> whole == "0" && Front(t) == '0')
  }

  predicate AcceptsFraction(frac: string, t: string) {
    if frac == "" then !(Front(t) == '.' && IsDigit(Front(t[1..]))) else !IsDigit(Front(t))
  }

  /** What the parser takes for a number in front of `rest`. */
  predicate AcceptsNumeral(n: Numeral, v: nat, x: nat, rest: string) {
    var tail := PowerText(n.power) + rest;
    && (n.whole == "" ==> n.minus) && DecNumber(n.whole + n.frac, v)
    && AcceptsWhole(n.whole, FractionText(n.frac) + tail)
    && AcceptsFraction(n.frac, tail) && AcceptsPower(n.power, x, rest)
  }

  function Signed(minus: bool, v: int): int {
    if minus then -v else v
  }

  function PowerOf(n: Numeral, x: nat): int {
    Signed(n.power.Some? && n.power.value.sign == "-", x)
  }

  function Ten(k: nat): nat {
    if k == 0 then 1 else 10 * Ten(k - 1)
  }

  /** `d` is the number written. */
  predicate Denotes(n: Numeral, v: nat, x: nat, d: real) {
    var m := Signed(n.minus, v) as real;
    var e := PowerOf(n, x) - |n.frac|;
    if e >= 0 then d == m * Ten(e) as real else d * Ten(-e) as real == m
  }

  lemma DecDigitForm(c: char)
    ensures forall d: nat :: DecForm(c, d) ==> IsDigit(c) && DigitValue(c) == d
  {
  }

  /** Digits behind those already read. */
  lemma {:induction false} DigitsGoOn(p: string, q: string, v: nat, rest: string) returns (w: nat)
    requires DecNumber(p + q, v)
    ensures DecNumber(p, w) && ReadDigits(w as real, q + rest) == ReadDigits(v as real, rest)
    decreases |q|
  {
    hide DecForm;
    if q == "" {
      assert p + q == p && q + rest == rest;
      w := v;
    } else {
      var r, c := q[..|q| - 1], q[|q| - 1];
      assert (p + q)[..|p + q| - 1] == p + r && (p + q)[|p + q| - 1] == c;
      w := DigitsGoOn(p, r, v / 10, [c] + rest);
      DecDigitForm(c);
      assert r + ([c] + rest) == q + rest && ([c] + rest)[1..] == rest;
      assert (v / 10) as real * 10.0 + (v % 10) as real == v as real;
    }
  }

  lemma {:induction false} PowerReads(q: string, x: nat, rest: string)
    requires DecNumber(q, x)
    ensures ReadExponent(0, q + rest) == ReadExponent(x, rest)
    decreases |q|
  {
    hide DecForm;
    if q == "" {
      assert q + rest == rest;
    } else {
      var r, c := q[..|q| - 1], q[|q| - 1];
      PowerReads(r, x / 10, [c] + rest);
      DecDigitForm(c);
      assert r + ([c] + rest) == q + rest && ([c] + rest)[1..] == rest;
    }
  }

  lemma {:induction false} DigitsOnly(t: string, v: nat, i: nat)
    requires DecNumber(t, v) && i < |t|
    ensures IsDigit(t[i])
    decreases |t|
  {
    if i < |t| - 1 {
      DigitsOnly(t[..|t| - 1], v / 10, i);
    }
  }

  lemma WholeReads(whole: string, w: nat, t: string)
    requires AcceptsWhole(whole, t) && DecNumber(whole, w)
    ensures Integral(whole + t) == (w as real, t)
  {
    hide DecNumber;
    var s := whole + t;
    if whole == "" {
      assert s == t;
      NoDigits(w);
    } else if whole == "0" {
      assert s[0] == '0' && s[1..] == t;
      ZeroValue(w);
    } else if whole[0] == '0' {
      assert whole == "0" + whole[1..] && s[0] == '0' && s[1..] == whole[1..] + t && s[1..][0] == whole[1];
      var z := DigitsGoOn("0", whole[1..], w, t);
      ZeroValue(z);
    } else {
      assert s[0] == whole[0] && "" + whole == whole;
      var z := DigitsGoOn("", whole, w, t);
      NoDigits(z);
    }
  }

  lemma ZeroValue(w: nat)
    requires DecNumber("0", w)
    ensures w == 0
  {
    assert DecNumber("0"[..0], w / 10);
  }

  lemma NoDigits(z: nat)
    requires DecNumber("", z)
    ensures z == 0
  {
  }

  lemma FractionReads(p: string, frac: string, v: nat, t: string) returns (u: nat)
    requires DecNumber(p + frac, v) && AcceptsFraction(frac, t)
    ensures DecNumber(p, u)
    ensures Fraction(u as real, FractionText(frac) + t) == (v as real, -|frac|, t)
  {
    hide DecNumber;
    if frac == "" {
      assert "" + t == t && p + "" == p;
      u := v;
    } else {
      u := DigitsGoOn(p, frac, v, t);
      var s := "." + frac + t;
      assert s[1..] == frac + t && s[1..][0] == frac[0] == (p + frac)[|p|];
      DigitsOnly(p + frac, v, |p|);
    }
  }

  lemma PowerTextReads(p: Option<Power>, x: nat, rest: string)
    requires AcceptsPower(p, x, rest)
    ensures Exponent(PowerText(p) + rest) == (Signed(p.Some? && p.value.sign == "-", x), rest)
  {
    hide DecNumber;
    match p
    case None =>
      assert "" + rest == rest;
    case Some(w) =>
      var s := PowerText(p) + rest;
      PowerReads(w.digits, x, rest);
      assert s[0] == w.mark && s[1..] == w.sign + (w.digits + rest);
      if w.sign == "" {
        assert s[1..] == w.digits + rest;
        if w.digits != "" {
          DigitsOnly(w.digits, x, 0);
        }
      } else {
        assert s[2..] == w.digits + rest;
      }
  }

  lemma {:induction false} PowerOfTen(k: int)
    requires k >= 0
    ensures Pow10(k) == Ten(k) as real && Pow10(-k) * Ten(k) as real == 1.0 && Ten(k) > 0
  {
    if k > 0 {
      PowerOfTen(k - 1);
      assert Pow10(-k) == Pow10(-(k - 1)) / 10.0;
      assert Pow10(-k) * Ten(k) as real == (Pow10(-(k - 1)) / 10.0) * (10.0 * Ten(k - 1) as real);
    }
  }

  /** The product of sign, digits and power is the number written, and nothing else is. */
  lemma ScaledDenotes(n: Numeral, v: nat, x: nat, d: real)
    ensures Denotes(n, v, x, d)
       <==> d == Scaled(if n.minus then -1.0 else 1.0, v as real, PowerOf(n, x) - |n.frac|)
  {
    hide Ten, Pow10;
    var e := PowerOf(n, x) - |n.frac|;
    var m := Signed(n.minus, v) as real;
    assert m == (if n.minus then -1.0 else 1.0) * v as real;
    if e >= 0 {
      PowerOfTen(e);
    } else {
      PowerOfTen(-e);
      Inverse(d, Ten(-e) as real, Pow10(e), m);
    }
  }

  lemma Inverse(d: real, t: real, p: real, m: real)
    requires p * t == 1.0
    ensures d * t == m <==> d == m * p
  {
    if d * t == m {
      assert m * p == d * t * p == d * (p * t);
    }
    if d == m * p {
      assert d * t == m * p * t == m * (p * t);
    }
  }

  /** A number in any spelling is read as the number written, unless the exponent or the
      number does not fit an int. */
  lemma NumberReads(n: Numeral, v: nat, x: nat, d: real, rest: string)
    requires AcceptsNumeral(n, v, x, rest) && Denotes(n, v, x, d)
    ensures var s := NumeralText(n) + rest;
            && s != "" && (s[0] == '-' || IsDigit(s[0]))
            && ParseNumber(s) == if x < 0x8000_0000 && FitsInt(d) then Done(Number(Truncate(d), d), rest) else Wild
  {
    hide DecNumber, Denotes, Integral, Fraction, Exponent, Scaled, PowerText, FitsInt, Truncate, FractionText;
    hide AcceptsFraction, AcceptsPower;
    var tail := PowerText(n.power) + rest;
    PowerTextReads(n.power, x, rest);
    var middle := FractionText(n.frac) + tail;
    var w := FractionReads(n.whole, n.frac, v, tail);
    WholeReads(n.whole, w, middle);
    ScaledDenotes(n, v, x, d);
    var s := NumeralText(n) + rest;
    assert s == (if n.minus then "-" else "") + (n.whole + middle);
    if n.minus {
      assert s[0] == '-' && s[1..] == n.whole + middle;
    } else {
      assert s == n.whole + middle && s[0] == n.whole[0];
    }
  }

  /** A legal number is taken wherever no number can go on. */
  lemma LegalNumeralAccepted(n: Numeral, v: nat, x: nat, rest: string)
    requires LegalNumeral(n, v, x) && NumberEnds(rest)
    ensures AcceptsNumeral(n, v, x, rest)
  {
    hide DecNumber;
    var tail := PowerText(n.power) + rest;
    forall i | 0 <= i < |n.whole|
      ensures IsDigit(n.whole[i])
    {
      DigitsOnly(n.whole + n.frac, v, i);
      assert (n.whole + n.frac)[i] == n.whole[i];
    }
    assert n.power.Some? ==> tail[0] == n.power.value.mark;
    assert n.power.None? ==> tail == rest;
    assert n.frac != "" ==> (FractionText(n.frac) + tail)[0] == '.';
    assert n.frac == "" ==> FractionText(n.frac) + tail == tail;
  }

  // ---- Every number that is read

  lemma {:induction false} DigitsSound(p: string, n: nat, s: string) returns (q: string, v: nat, t: string)
    requires DecNumber(p, n)
    ensures s == q + t && !IsDigit(Front(t)) && DecNumber(p + q, v) && ReadDigits(n as real, s) == (v as real, t)
    ensures IsDigit(Front(s)) <==> q != ""
    ensures forall i :: 0 <= i < |q| ==> IsDigit(q[i])
    decreases |s|
  {
    hide DecNumber;
    if IsDigit(Front(s)) {
      DigitForm(s[0]);
      DecGrows(p, n, s[0], DigitValue(s[0]));
      var r;
      r, v, t := DigitsSound(p + [s[0]], n * 10 + DigitValue(s[0]), s[1..]);
      q := [s[0]] + r;
      assert p + [s[0]] + r == p + q;
      assert n as real * 10.0 + DigitValue(s[0]) as real == (n * 10 + DigitValue(s[0])) as real;
    } else {
      q, v, t := "", n, s;
      assert p + q == p;
    }
  }

  lemma DigitForm(c: char)
    requires IsDigit(c)
    ensures DecForm(c, DigitValue(c))
  {
  }

  lemma {:induction false} PowerSound(p: string, n: nat, s: string) returns (q: string, v: nat, t: string)
    requires DecNumber(p, n)
    ensures s == q + t && !IsDigit(Front(t)) && DecNumber(p + q, v) && ReadExponent(n, s) == (v, t)
    decreases |s|
  {
    hide DecNumber;
    if IsDigit(Front(s)) {
      DigitForm(s[0]);
      DecGrows(p, n, s[0], DigitValue(s[0]));
      var r;
      r, v, t := PowerSound(p + [s[0]], n * 10 + DigitValue(s[0]), s[1..]);
      q := [s[0]] + r;
      assert p + [s[0]] + r == p + q;
    } else {
      q, v, t := "", n, s;
      assert p + q == p;
    }
  }

  lemma NoDecDigits()
    ensures DecNumber("", 0) && DecNumber("0", 0)
  {
    assert "0"[..0] == "";
  }

  lemma WholeSound(s: string) returns (whole: string, w: nat, t: string)
    ensures s == whole + t && DecNumber(whole, w) && AcceptsWhole(whole, t) && Integral(s) == (w as real, t)
    ensures IsDigit(Front(s)) ==> whole != ""
  {
    hide DecNumber;
    NoDecDigits();
    if Front(s) == '0' {
      assert s == "0" + s[1..];
      if '1' <= Front(s[1..]) <= '9' {
        var q;
        q, w, t := DigitsSound("0", 0, s[1..]);
        whole := "0" + q;
        assert whole[1] == q[0] == s[1..][0];
      } else {
        whole, w, t := "0", 0, s[1..];
      }
    } else if IsDigit(Front(s)) {
      whole, w, t := DigitsSound("", 0, s);
      assert "" + whole == whole && whole[0] == s[0];
    } else {
      whole, w, t := "", 0, s;
    }
  }

  lemma FractionSound(p: string, u: nat, s: string) returns (frac: string, v: nat, t: string)
    requires DecNumber(p, u)
    ensures s == FractionText(frac) + t && DecNumber(p + frac, v) && AcceptsFraction(frac, t)
    ensures Fraction(u as real, s) == (v as real, -|frac|, t)
  {
    hide DecNumber;
    if Front(s) == '.' && IsDigit(Front(s[1..])) {
      frac, v, t := DigitsSound(p, u, s[1..]);
      assert s == "." + s[1..];
      assert "." + (frac + t) == "." + frac + t;
    } else {
      frac, v, t := "", u, s;
      assert p + "" == p;
    }
  }

  lemma ExponentSound(s: string) returns (p: Option<Power>, x: nat, t: string)
    ensures s == PowerText(p) + t && AcceptsPower(p, x, t)
    ensures Exponent(s) == (Signed(p.Some? && p.value.sign == "-", x), t)
  {
    hide DecNumber;
    NoDecDigits();
    if Front(s) != 'e' && Front(s) != 'E' {
      p, x, t := None, 0, s;
    } else {
      var sign := if Front(s[1..]) == '+' then "+" else if Front(s[1..]) == '-' then "-" else "";
      var r := s[1..][|sign|..];
      var q;
      q, x, t := PowerSound("", 0, r);
      p := Some(Power(s[0], sign, q));
      PowerSplit(s, sign, q, t);
    }
  }

  lemma PowerSplit(s: string, sign: string, q: string, t: string)
    requires s != "" && |sign| <= |s| - 1 && s[1..][|sign|..] == q + t
    requires sign == if Front(s[1..]) == '+' then "+" else if Front(s[1..]) == '-' then "-" else ""
    ensures s == [s[0]] + (sign + q) + t && "" + q == q
    ensures sign != "" ==> s[2..] == q + t
    ensures sign == "" ==> s[1..] == q + t && (q == "" ==> Front(t) != '+' && Front(t) != '-')
  {
    assert s == [s[0]] + s[1..] && s[1..] == sign + (q + t);
  }

  /** Every number the parser reads has an accepted spelling, and is what it denotes. */
  lemma NumberSound(s: string) returns (n: Numeral, v: nat, x: nat, d: real)
    requires s != "" && (s[0] == '-' || IsDigit(s[0])) && ParseNumber(s).Done?
    ensures var r := ParseNumber(s);
            && s == NumeralText(n) + r.rest && r.value == Number(Truncate(d), d)
            && AcceptsNumeral(n, v, x, r.rest) && Denotes(n, v, x, d) && x < 0x8000_0000 && FitsInt(d)
  {
    hide DecNumber, Denotes, Integral, Fraction, Exponent, Scaled, PowerText, FitsInt, Truncate, FractionText;
    hide AcceptsWhole, AcceptsFraction, AcceptsPower;
    var minus := s[0] == '-';
    var s0 := if minus then s[1..] else s;
    var whole, w, s1 := WholeSound(s0);
    var frac, v2, s2 := FractionSound(whole, w, s1);
    var p, x2, s3 := ExponentSound(s2);
    n, v, x := Numeral(minus, whole, frac, p), v2, x2;
    d := Scaled(if minus then -1.0 else 1.0, v as real, PowerOf(n, x) - |frac|);
    ScaledDenotes(n, v, x, d);
    assert s == (if minus then "-" else "") + s0;
    assert whole + (FractionText(frac) + (PowerText(p) + s3)) == whole + (FractionText(frac) + PowerText(p)) + s3;
  }
}
