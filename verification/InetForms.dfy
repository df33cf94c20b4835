/** Which texts are addresses, said without the parsers: dotted quads, and the text
    representations of section 2.2 of RFC 4291. */
module InetForms {
  import opened Basics
  import opened Inet
  import opened InetText
  import opened Numerals
  import opened Words

  // ---- The forms

  /** One to four hexadecimal digits. */
  predicate GroupForm(t: string, v: nat) {
    1 <= |t| <= 4 && HexNumber(t, v)
  }

  /** A number up to 255, without leading zeros. */
  predicate OctetForm(t: string, v: nat) {
    v < 256 && t != "" && (t[0] == '0' ==> |t| == 1) && DecNumber(t, v)
  }

  function Separated(parts: seq<string>, mark: char): string {
    if parts == [] then "" else if |parts| == 1 then parts[0] else parts[0] + [mark] + Separated(parts[1..], mark)
  }

  /** Four octets with dots between them. */
  ghost predicate QuadForm(s: string, b: Bytes) {
    && |b| == 4
    && exists p: seq<string> ::
         |p| == 4 && s == Separated(p, '.') && forall i :: 0 <= i < 4 ==> OctetForm(p[i], b[i])
  }

  /** Each part is a group of two bytes; the last one may be a dotted quad where `tail`
      allows it. */
  ghost predicate PartsForm(parts: seq<string>, b: Bytes, tail: bool)
    decreases |parts|
  {
    if parts == [] then b == []
    else
      || (|b| >= 2 && GroupForm(parts[0], b[0] as int * 0x100 + b[1] as int) && PartsForm(parts[1..], b[2..], tail))
      || (tail && |parts| == 1 && QuadForm(parts[0], b))
  }

  /** All sixteen bytes, with colons between the parts. */
  ghost predicate FullForm(s: string, b: Bytes) {
    exists parts: seq<string> :: s == Separated(parts, ':') && PartsForm(parts, b, true)
  }

  /** A double colon stands for the zero bytes between the first `n` and the last `m`, two
      at least. */
  ghost predicate GapForm(s: string, b: Bytes, l: seq<string>, r: seq<string>, n: nat, m: nat) {
    && |b| == 16 && n + m <= 14
    && s == Separated(l, ':') + "::" + Separated(r, ':')
    && PartsForm(l, b[..n], false) && PartsForm(r, b[16 - m..], true)
    && forall i :: n <= i < 16 - m ==> b[i] == 0
  }

  ghost predicate AddressForm(s: string, b: Bytes) {
    |b| == 16 && (FullForm(s, b) || exists l, r, n, m :: GapForm(s, b, l, r, n, m))
  }

  /** An address of at most 45 characters may have a scope behind it. */
  ghost predicate ScopedForm(s: string, b: Bytes) {
    exists text: string, zone: string ::
      && s == text + zone && Clean(text) && AddressForm(text, b)
      && (zone == "" || (zone[0] == '%' && |text| <= 45))
  }

  // ---- Digits

  lemma HexDigitForm(c: char)
    ensures HexDigit(c).Some? ==> HexForm(c, HexDigit(c).value)
    ensures forall d: nat :: HexForm(c, d) ==> HexDigit(c) == Some(d)
  {
  }

  lemma DecDigitForm(c: char)
    ensures DecDigit(c).Some? ==> DecForm(c, DecDigit(c).value) && HexDigit(c).Some?
    ensures forall d: nat :: DecForm(c, d) ==> DecDigit(c) == Some(d) && HexDigit(c).Some?
  {
  }

  lemma ZeroFirst(t: string, v: nat)
    requires OctetForm(t, v)
    ensures t[0] == '0' <==> v == 0
  {
    if t[0] != '0' {
      DecBound(t, v);
    } else {
      assert t[..|t| - 1] == "" && DecNumber(t[..|t| - 1], v / 10);
    }
  }

  // ---- Dotted quads

  function Started(p: string): nat {
    if p == "" then 0 else 1
  }

  /** One more digit, unless the octet is a zero or gets too large. */
  lemma OctetGrows(p: string, v: nat, c: char, d: nat)
    requires DecForm(c, d) && (if p == "" then v == 0 else OctetForm(p, v) && v != 0)
    ensures v * 10 + d < 256 ==> OctetForm(p + [c], v * 10 + d)
  {
    hide DecForm;
    DecGrows(p, v, c, d);
    if p != "" {
      ZeroFirst(p, v);
    }
  }

  lemma {:induction false} QuadSound(done: Bytes, p: string, v: Byte, s: string, b: Bytes) returns (parts: seq<string>)
    requires |done| <= 3 && (if p == "" then v == 0 else OctetForm(p, v))
    requires Octets(done + [v], |done| + Started(p), p != "", s) == Some(b)
    ensures Separated(parts, '.') == p + s && |done| + |parts| == 4 && |b| == 4 && done == b[..|done|]
    ensures forall i :: 0 <= i < |parts| ==> OctetForm(parts[i], b[|done| + i])
    decreases |s|
  {
    hide DecForm;
    assert (done + [v])[|done|] == v;
    if s == "" {
      parts := [p];
      assert p + s == p;
    } else {
      DecDigitForm(s[0]);
      match DecDigit(s[0])
      case Some(d) =>
        var nw := v as int * 10 + d;
        assert (done + [v])[|done| := nw] == done + [nw];
        OctetGrows(p, v, s[0], d);
        assert p + [s[0]] + s[1..] == p + s;
        parts := QuadSound(done, p + [s[0]], nw, s[1..], b);
      case None =>
        assert done + [v] + [0] == (done + [v]) + [0];
        var rest := QuadSound(done + [v], "", 0, s[1..], b);
        parts := [p] + rest;
        QuadJoins(done, p, v, s, b, rest);
    }
  }

  lemma QuadJoins(done: Bytes, p: string, v: Byte, s: string, b: Bytes, rest: seq<string>)
    requires s != "" && s[0] == '.' && OctetForm(p, v) && Separated(rest, '.') == "" + s[1..] && rest != []
    requires |done| + 1 + |rest| == 4 == |b| && done + [v] == b[..|done| + 1]
    requires forall i :: 0 <= i < |rest| ==> OctetForm(rest[i], b[|done| + 1 + i])
    ensures var parts := [p] + rest;
            && Separated(parts, '.') == p + s && done == b[..|done|]
            && forall i :: 0 <= i < |parts| ==> OctetForm(parts[i], b[|done| + i])
  {
    hide OctetForm;
    assert ([p] + rest)[1..] == rest;
    assert p + s == p + ['.'] + s[1..];
    assert b[..|done| + 1][..|done|] == b[..|done|] && b[|done|] == v;
  }

  lemma {:induction false} OctetRead(done: Bytes, t: string, w: Byte, rest: string)
    requires OctetForm(t, w) && |done| <= 3
    ensures Octets(done + [0], |done|, false, t + rest) == Octets(done + [w], |done| + 1, true, rest)
    decreases |t|
  {
    hide DecForm;
    var u, c := t[..|t| - 1], t[|t| - 1];
    DecDigitForm(c);
    if u == "" {
      assert t + rest == [c] + rest && ([c] + rest)[1..] == rest;
      assert DecNumber(u, w / 10) && w / 10 == 0;
      assert (done + [0])[|done| := w] == done + [w];
    } else {
      DecBound(u, w / 10);
      OctetRead(done, u, w / 10, [c] + rest);
      assert u + ([c] + rest) == t + rest && ([c] + rest)[1..] == rest;
      assert (done + [w / 10])[|done| := w] == done + [w];
    }
  }

  lemma {:induction false} QuadComplete(done: Bytes, parts: seq<string>, bs: Bytes)
    requires |parts| == |bs| >= 1 && |done| + |bs| == 4
    requires forall i :: 0 <= i < |parts| ==> OctetForm(parts[i], bs[i])
    ensures Octets(done + [0], |done|, false, Separated(parts, '.')) == Some(done + bs)
    decreases |parts|
  {
    hide OctetForm;
    var s := Separated(parts, '.');
    if |parts| == 1 {
      assert s == parts[0] + "" && done + bs == done + [bs[0]];
      OctetRead(done, parts[0], bs[0], "");
    } else {
      var rest := Separated(parts[1..], '.');
      assert s == parts[0] + (['.'] + rest) && (['.'] + rest)[1..] == rest;
      OctetRead(done, parts[0], bs[0], ['.'] + rest);
      QuadComplete(done + [bs[0]], parts[1..], bs[1..]);
      assert done + [bs[0]] + bs[1..] == done + bs;
    }
  }

  /** inet_pton4 accepts exactly the dotted quads. */
  lemma Pton4Iff(s: string, b: Bytes)
    ensures Pton4(s) == Some(b) <==> QuadForm(s, b)
  {
    hide OctetForm, Octets;
    if Pton4(s) == Some(b) {
      assert [] + [0] == [0] && "" + s == s;
      var parts := QuadSound([], "", 0, s, b);
    }
    if QuadForm(s, b) {
      var p: seq<string> :| |p| == 4 && s == Separated(p, '.') && forall i :: 0 <= i < 4 ==> OctetForm(p[i], b[i]);
      QuadComplete([], p, b);
      assert [] + [0] == [0] && [] + b == b;
    }
  }

  // ---- Groups

  function Gap(n: nat): Bytes {
    seq(n, _ => 0)
  }

  lemma TwoBytesForm(t: string, v: nat)
    requires GroupForm(t, v)
    ensures v < 0x1_0000 && PartsForm([t], TwoBytes(v), false) && PartsForm([t], TwoBytes(v), true)
  {
    HexBound(t, v, 4);
    assert PartsForm([], [], false) && PartsForm([], [], true);
    assert [t][1..] == [] && TwoBytes(v)[2..] == [];
  }

  lemma OnePart(t: string, b: Bytes)
    requires t != "" && QuadForm(t, b)
    ensures PartsForm([t], b, true)
  {
  }

  lemma PartBefore(t: string, v: nat, parts: seq<string>, b: Bytes, tail: bool)
    requires GroupForm(t, v) && PartsForm(parts, b, tail)
    ensures v < 0x1_0000 && PartsForm([t] + parts, TwoBytes(v) + b, tail)
  {
    hide GroupForm, QuadForm;
    TwoBytesForm(t, v);
    assert ([t] + parts)[1..] == parts && (TwoBytes(v) + b)[2..] == b;
  }

  lemma SeparatedBefore(t: string, parts: seq<string>)
    requires parts != []
    ensures Separated([t] + parts, ':') == t + [':'] + Separated(parts, ':')
  {
    assert ([t] + parts)[1..] == parts;
  }

  lemma Token(p: string, s: string)
    requires s != ""
    ensures p + [s[0]] + s[1..] == p + s
  {
  }

  /** What is read behind the double colon. */
  lemma {:induction false} RightSound(tp: Bytes, c: nat, p: string, v: nat, s: string, b: Bytes)
    returns (parts: seq<string>, bs: Bytes)
    requires c <= |tp| <= 16 && |tp| % 2 == 0 && |p| <= 4 && HexNumber(p, v)
    requires Groups(tp, Some(c), p + s, |p|, v, s) == Some(b)
    ensures p + s == Separated(parts, ':') && PartsForm(parts, bs, true) && |tp| + |bs| <= 14
    ensures b == tp[..c] + Gap(16 - |tp| - |bs|) + tp[c..] + bs
    decreases |s|
  {
    hide Groups, Pton4, QuadForm, HexNumber, HexForm, PartsForm, Separated;
    if s == "" {
      GroupsEnd(tp, Some(c), p + s, |p|, v);
      assert p + s == p;
      parts, bs := RightEnd(tp, c, p, v, b);
    } else {
      GroupsStep(tp, Some(c), p + s, |p|, v, s);
      HexDigitForm(s[0]);
      Token(p, s);
      match HexDigit(s[0])
      case Some(d) =>
        HexGrows(p, v, s[0], d);
        parts, bs := RightSound(tp, c, p + [s[0]], v * 16 + d, s[1..], b);
      case None =>
        if s[0] == ':' {
          assert "" + s[1..] == s[1..];
          NoHex();
          var next := tp + TwoBytes(v);
          var rest, br := RightSound(next, c, "", 0, s[1..], b);
          NoParts(rest);
          PartBefore(p, v, rest, br, true);
          SeparatedBefore(p, rest);
          parts, bs := [p] + rest, TwoBytes(v) + br;
          Shifted(tp, c, TwoBytes(v), br, Gap(16 - |next| - |br|));
        } else {
          var four := Pton4(p + s).value;
          Pton4Iff(p + s, four);
          OnePart(p + s, four);
          parts, bs := [p + s], four;
          OneSeparated(p + s);
          QuadSize(p + s, four);
          ClosedGap(tp + four, c, b);
          Shifted(tp, c, four, [], Gap(16 - |tp + four|));
        }
    }
  }

  lemma NoHex()
    ensures HexNumber("", 0)
  {
  }

  lemma NoParts(parts: seq<string>)
    ensures Separated(parts, ':') != "" ==> parts != []
  {
  }

  lemma OneSeparated(t: string)
    ensures Separated([t], ':') == t
  {
  }

  lemma QuadSize(s: string, b: Bytes)
    requires QuadForm(s, b)
    ensures |b| == 4
  {
  }

  lemma ClosedGap(all: Bytes, c: nat, b: Bytes)
    requires c <= |all| && Close(all, Some(c), 0, 0) == Some(b)
    ensures |all| <= 15 && b == all[..c] + Gap(16 - |all|) + all[c..]
  {
  }

  lemma Shifted(tp: Bytes, c: nat, x: Bytes, y: Bytes, gap: Bytes)
    requires c <= |tp|
    ensures (tp + x)[..c] + gap + (tp + x)[c..] + y == tp[..c] + gap + tp[c..] + (x + y)
    ensures (tp + x)[..c] + gap + (tp + x)[c..] == tp[..c] + gap + tp[c..] + x
  {
    assert (tp + x)[..c] == tp[..c] && (tp + x)[c..] == tp[c..] + x;
  }

  lemma RightEnd(tp: Bytes, c: nat, p: string, v: nat, b: Bytes) returns (parts: seq<string>, bs: Bytes)
    requires c <= |tp| <= 16 && |tp| % 2 == 0 && |p| <= 4 && HexNumber(p, v) && Close(tp, Some(c), |p|, v) == Some(b)
    ensures p == Separated(parts, ':') && PartsForm(parts, bs, true) && |tp| + |bs| <= 14
    ensures b == tp[..c] + Gap(16 - |tp| - |bs|) + tp[c..] + bs
  {
    hide HexNumber;
    if p == "" {
      parts, bs := [], [];
    } else {
      TwoBytesForm(p, v);
      parts, bs := [p], TwoBytes(v);
      Shifted(tp, c, bs, [], Gap(16 - |tp| - |bs|));
    }
  }

  /** What is still to be read of an address: parts up to its end, or up to a double colon
      and beyond it. */
  datatype Tail = Full(l: seq<string>, bl: Bytes) | Gapped(l: seq<string>, bl: Bytes, r: seq<string>, br: Bytes) {
    ghost predicate Ok(taken: nat) {
      match this
      case Full(_, _) => PartsForm(l, bl, true) && taken + |bl| == 16
      case Gapped(_, _, _, _) => PartsForm(l, bl, false) && PartsForm(r, br, true) && taken + |bl| + |br| <= 14
    }

    function Text(): string {
      match this
      case Full(_, _) => Separated(l, ':')
      case Gapped(_, _, _, _) => (if l == [] then [':'] else Separated(l, ':') + [':', ':']) + Separated(r, ':')
    }

    function Bytes(taken: nat): Bytes
      requires Gapped? ==> taken + |bl| + |br| <= 16
    {
      match this
      case Full(_, _) => bl
      case Gapped(_, _, _, _) => bl + Gap(16 - taken - |bl| - |br|) + br
    }

    function Push(t: string, two: Bytes): Tail {
      match this
      case Full(_, _) => Full([t] + l, two + bl)
      case Gapped(_, _, _, _) => Gapped([t] + l, two + bl, r, br)
    }
  }

  lemma TwoBytesLong(v: nat)
    ensures |TwoBytes(v)| == 2
  {
  }

  lemma TextPushed(t: string, u: Tail, two: Bytes)
    requires u.l != [] ==> Separated([t] + u.l, ':') == t + [':'] + Separated(u.l, ':')
    requires u.l == [] ==> Separated([t] + u.l, ':') == t && (u.Full? ==> u.Text() == "")
    ensures u.Text() != "" ==> u.Push(t, two).Text() == t + [':'] + u.Text()
  {
    hide Separated;
  }

  lemma TailBefore(t: string, v: nat, u: Tail, taken: nat)
    requires GroupForm(t, v) && u.Ok(taken + 2) && u.Text() != ""
    ensures var w := u.Push(t, TwoBytes(v));
            && v < 0x1_0000 && w.Ok(taken) && w.Text() == t + [':'] + u.Text()
            && w.Bytes(taken) == TwoBytes(v) + u.Bytes(taken + 2)
  {
    hide GroupForm, PartsForm, TwoBytes, Separated;
    PartBefore(t, v, u.l, u.bl, u.Full?);
    NoneSeparated();
    if u.l != [] {
      SeparatedBefore(t, u.l);
    } else {
      OneSeparated(t);
      assert [t] + u.l == [t];
    }
    TwoBytesLong(v);
    TextPushed(t, u, TwoBytes(v));
    if u.Gapped? {
      var gap := Gap(16 - taken - 2 - |u.bl| - |u.br|);
      assert TwoBytes(v) + u.bl + gap + u.br == TwoBytes(v) + (u.bl + gap + u.br);
    }
  }

  /** What is read before a double colon is met. */
  lemma {:induction false} LeftSound(tp: Bytes, p: string, v: nat, s: string, b: Bytes) returns (u: Tail)
    requires |tp| <= 16 && |tp| % 2 == 0 && |p| <= 4 && HexNumber(p, v)
    requires Groups(tp, None, p + s, |p|, v, s) == Some(b)
    ensures u.Ok(|tp|) && p + s == u.Text() && b == tp + u.Bytes(|tp|)
    decreases |s|
  {
    hide Groups, Pton4, QuadForm, HexNumber, HexForm, PartsForm, Separated;
    if s == "" {
      GroupsEnd(tp, None, p + s, |p|, v);
      assert p + s == p;
      u := LeftEnd(tp, p, v, b);
    } else {
      GroupsStep(tp, None, p + s, |p|, v, s);
      HexDigitForm(s[0]);
      Token(p, s);
      match HexDigit(s[0])
      case Some(d) =>
        HexGrows(p, v, s[0], d);
        u := LeftSound(tp, p + [s[0]], v * 16 + d, s[1..], b);
      case None =>
        assert "" + s[1..] == s[1..];
        NoHex();
        if s[0] == ':' && p == "" {
          EmptyHex(v);
          var r, br := RightSound(tp, |tp|, "", 0, s[1..], b);
          u := LeftGap(tp, s, r, br);
        } else if s[0] == ':' {
          var next := LeftSound(tp + TwoBytes(v), "", 0, s[1..], b);
          TailBefore(p, v, next, |tp|);
          u := next.Push(p, TwoBytes(v));
        } else {
          var four := Pton4(p + s).value;
          Pton4Iff(p + s, four);
          OnePart(p + s, four);
          OneSeparated(p + s);
          QuadSize(p + s, four);
          u := Full([p + s], four);
          assert Close(tp + four, None, 0, v) == Some(tp + four) && |tp + four| == 16;
        }
    }
  }

  lemma EmptyHex(v: nat)
    ensures HexNumber("", v) ==> v == 0
  {
  }

  lemma LeftGap(tp: Bytes, s: string, r: seq<string>, br: Bytes) returns (u: Tail)
    requires s != "" && s[0] == ':' && s[1..] == Separated(r, ':') && PartsForm(r, br, true) && |tp| + |br| <= 14
    ensures u == Gapped([], [], r, br) && u.Ok(|tp|) && s == u.Text()
    ensures tp + u.Bytes(|tp|) == tp[..|tp|] + Gap(16 - |tp| - |br|) + tp[|tp|..] + br
  {
    u := Gapped([], [], r, br);
    assert s == [':'] + s[1..];
    assert PartsForm([], [], false);
  }

  lemma LeftEnd(tp: Bytes, p: string, v: nat, b: Bytes) returns (u: Tail)
    requires |tp| <= 16 && |p| <= 4 && HexNumber(p, v) && Close(tp, None, |p|, v) == Some(b)
    ensures u.Ok(|tp|) && p == u.Text() && b == tp + u.Bytes(|tp|)
  {
    hide HexNumber;
    if p == "" {
      u := Full([], []);
    } else {
      TwoBytesForm(p, v);
      u := Full([p], TwoBytes(v));
    }
  }

  // ---- Every form is read

  /** A group is read digit by digit. */
  lemma {:induction false} GroupRead(tp: Bytes, colon: Option<nat>, token: string, t: string, v: nat, rest: string)
    requires |tp| <= 16 && (colon.Some? ==> colon.value <= |tp|) && |t| <= 4 && HexNumber(t, v)
    ensures Groups(tp, colon, token, 0, 0, t + rest) == Groups(tp, colon, token, |t|, v, rest)
    decreases |t|
  {
    hide Groups, HexForm;
    if t == "" {
      assert "" + rest == rest;
    } else {
      var u, c := t[..|t| - 1], t[|t| - 1];
      GroupRead(tp, colon, token, u, v / 16, [c] + rest);
      assert u + ([c] + rest) == t + rest && ([c] + rest)[1..] == rest;
      HexDigitForm(c);
      GroupsStep(tp, colon, token, |u|, v / 16, [c] + rest);
    }
  }

  /** So is the start of a dotted quad. */
  lemma {:induction false} OctetGroup(tp: Bytes, colon: Option<nat>, token: string, t: string, v: nat, rest: string)
    returns (w: nat)
    requires |tp| <= 16 && (colon.Some? ==> colon.value <= |tp|) && |t| <= 4 && DecNumber(t, v)
    ensures Groups(tp, colon, token, 0, 0, t + rest) == Groups(tp, colon, token, |t|, w, rest)
    decreases |t|
  {
    hide Groups, DecForm;
    if t == "" {
      assert "" + rest == rest;
      w := 0;
    } else {
      var u, c := t[..|t| - 1], t[|t| - 1];
      var x := OctetGroup(tp, colon, token, u, v / 10, [c] + rest);
      assert u + ([c] + rest) == t + rest && ([c] + rest)[1..] == rest;
      DecDigitForm(c);
      GroupsStep(tp, colon, token, |u|, x, [c] + rest);
      w := x * 16 + HexDigit(c).value;
    }
  }

  lemma OctetLength(t: string, v: nat)
    requires OctetForm(t, v)
    ensures |t| <= 3 && DecNumber(t, v)
  {
    if t[0] != '0' {
      DecBound(t, v);
    }
  }

  /** A quad starts with an octet and its dot. */
  lemma QuadStarts(s: string, b: Bytes) returns (t: string, v: nat, rest: string)
    requires QuadForm(s, b)
    ensures s == t + rest && rest != "" && rest[0] == '.' && |t| <= 3 && DecNumber(t, v)
  {
    hide OctetForm;
    var p: seq<string> :| |p| == 4 && s == Separated(p, '.') && forall i :: 0 <= i < 4 ==> OctetForm(p[i], b[i]);
    OctetLength(p[0], b[0]);
    t, v, rest := p[0], b[0], ['.'] + Separated(p[1..], '.');
  }

  lemma QuadRead(tp: Bytes, colon: Option<nat>, s: string, b: Bytes) returns (val: nat)
    requires |tp| + 4 <= 16 && (colon.Some? ==> colon.value <= |tp|) && QuadForm(s, b)
    ensures Groups(tp, colon, s, 0, 0, s) == Close(tp + b, colon, 0, val)
  {
    hide Groups, QuadForm, Pton4, DecNumber;
    var t, v, rest := QuadStarts(s, b);
    val := OctetGroup(tp, colon, s, t, v, rest);
    Pton4Iff(s, b);
    GroupsStep(tp, colon, s, |t|, val, rest);
  }

  lemma ClosedFull(all: Bytes, val: nat)
    requires |all| == 16
    ensures Close(all, None, 0, val) == Some(all)
  {
  }

  lemma ClosedRight(all: Bytes, c: nat, val: nat)
    requires c <= |all| <= 14
    ensures Close(all, Some(c), 0, val) == Some(all[..c] + Gap(16 - |all|) + all[c..])
  {
  }

  lemma ClosedGroup(tp: Bytes, colon: Option<nat>, seen: nat, val: nat)
    requires seen > 0 && |tp| + 2 <= 16 && (colon.Some? ==> colon.value <= |tp|)
    ensures Close(tp, colon, seen, val) == Close(tp + TwoBytes(val), colon, 0, 0)
  {
  }

  /** The first part and what follows it. */
  datatype First = Group(t: string, v: nat) | Quad

  lemma FirstPart(parts: seq<string>, b: Bytes, tail: bool) returns (f: First)
    requires PartsForm(parts, b, tail) && parts != []
    ensures f.Group? ==>
              && f.t == parts[0] && GroupForm(f.t, f.v) && f.v < 0x1_0000 && |b| >= 2
              && b == TwoBytes(f.v) + b[2..] && PartsForm(parts[1..], b[2..], tail)
    ensures f.Quad? ==> tail && |parts| == 1 && QuadForm(parts[0], b)
  {
    hide QuadForm, HexNumber;
    if |b| >= 2 && GroupForm(parts[0], b[0] as int * 0x100 + b[1] as int) && PartsForm(parts[1..], b[2..], tail) {
      f := Group(parts[0], b[0] as int * 0x100 + b[1] as int);
      HexBound(f.t, f.v, 4);
      assert b == [b[0], b[1]] + b[2..];
    } else {
      f := Quad;
    }
  }

  lemma NonemptyParts(parts: seq<string>, b: Bytes, tail: bool)
    requires PartsForm(parts, b, tail) && parts != []
    ensures Separated(parts, ':') != "" && parts[0] != "" && Separated(parts, ':')[0] == parts[0][0] != ':'
  {
    hide Separated;
    var f := FirstPart(parts, b, tail);
    match f {
      case Group(t, v) =>
        NotColon(t, v);
      case Quad =>
        var t, v, rest := QuadStarts(parts[0], b);
        DigitFirst(t, v, rest);
    }
    SeparatedFirst(parts);
  }

  lemma SeparatedFirst(parts: seq<string>)
    requires parts != [] && parts[0] != ""
    ensures Separated(parts, ':') != "" && Separated(parts, ':')[0] == parts[0][0]
  {
  }

  lemma {:induction false} NotColon(t: string, v: nat)
    requires HexNumber(t, v) && t != ""
    ensures t[0] != ':'
  {
    if |t| > 1 {
      NotColon(t[..|t| - 1], v / 16);
    }
  }

  lemma {:induction false} DigitFirst(t: string, v: nat, rest: string)
    requires DecNumber(t, v) && rest != "" && rest[0] == '.'
    ensures (t + rest)[0] != ':'
  {
    if |t| > 1 {
      DigitFirst(t[..|t| - 1], v / 10, rest);
    }
  }

  lemma {:induction false} RightComplete(tp: Bytes, c: nat, parts: seq<string>, bs: Bytes)
    requires c <= |tp| && |tp| + |bs| <= 14 && PartsForm(parts, bs, true)
    ensures var s := Separated(parts, ':');
            Groups(tp, Some(c), s, 0, 0, s) == Some(tp[..c] + Gap(16 - |tp| - |bs|) + tp[c..] + bs)
    decreases |parts|
  {
    hide Groups, Close, QuadForm, GroupForm, PartsForm, Separated;
    var s := Separated(parts, ':');
    if parts == [] {
      NoneSeparated();
      EmptyParts(bs, true);
      GroupsEnd(tp, Some(c), s, 0, 0);
      ClosedRight(tp, c, 0);
      var all := tp[..c] + Gap(16 - |tp|) + tp[c..];
      assert all + [] == all;
    } else {
      var f := FirstPart(parts, bs, true);
      match f
      case Quad =>
        assert parts == [parts[0]];
        OneSeparated(parts[0]);
        QuadSize(parts[0], bs);
        var val := QuadRead(tp, Some(c), parts[0], bs);
        ClosedRight(tp + bs, c, val);
        Shifted(tp, c, bs, [], Gap(16 - |tp| - |bs|));
      case Group(t, v) =>
        var next, more := tp + TwoBytes(v), bs[2..];
        Shifted(tp, c, TwoBytes(v), more, Gap(16 - |tp| - |bs|));
        if |parts| == 1 {
          assert parts[1..] == [];
          EmptyParts(more, true);
          assert bs == TwoBytes(v);
          LastGroup(tp, Some(c), t, v);
          assert parts == [t];
          OneSeparated(t);
          ClosedRight(next, c, 0);
        } else {
          var rest := Separated(parts[1..], ':');
          assert parts == [t] + parts[1..];
          SeparatedBefore(t, parts[1..]);
          NonemptyParts(parts[1..], more, true);
          GroupColon(tp, Some(c), t, v, rest);
          RightComplete(next, c, parts[1..], more);
        }
    }
  }

  lemma NoneSeparated()
    ensures Separated([], ':') == ""
  {
  }

  lemma EmptyParts(b: Bytes, tail: bool)
    ensures PartsForm([], b, tail) <==> b == []
  {
  }

  /** A group that ends the address. */
  lemma LastGroup(tp: Bytes, colon: Option<nat>, t: string, v: nat)
    requires |tp| + 2 <= 16 && (colon.Some? ==> colon.value <= |tp|) && GroupForm(t, v)
    ensures Groups(tp, colon, t, 0, 0, t) == Close(tp + TwoBytes(v), colon, 0, 0)
  {
    hide Groups, HexNumber;
    assert t + "" == t;
    GroupRead(tp, colon, t, t, v, "");
    GroupsEnd(tp, colon, t, |t|, v);
    ClosedGroup(tp, colon, |t|, v);
  }

  /** A group with a colon and something more behind it. */
  lemma GroupColon(tp: Bytes, colon: Option<nat>, t: string, v: nat, rest: string)
    requires |tp| + 2 <= 16 && (colon.Some? ==> colon.value <= |tp|) && GroupForm(t, v) && rest != ""
    ensures var s := t + [':'] + rest;
            Groups(tp, colon, s, 0, 0, s) == Groups(tp + TwoBytes(v), colon, rest, 0, 0, rest)
  {
    hide Groups, HexNumber;
    var s := t + [':'] + rest;
    assert s == t + ([':'] + rest) && ([':'] + rest)[1..] == rest;
    GroupRead(tp, colon, s, t, v, [':'] + rest);
    GroupsStep(tp, colon, s, |t|, v, [':'] + rest);
  }

  lemma {:induction false} LeftComplete(tp: Bytes, u: Tail)
    requires |tp| <= 16 && u.Ok(|tp|) && (u.Full? ==> u.l != [])
    ensures Groups(tp, None, u.Text(), 0, 0, u.Text()) == Some(tp + u.Bytes(|tp|))
    decreases |u.l|
  {
    hide Groups, Close, QuadForm, GroupForm, PartsForm, Separated;
    if u.l == [] {
      EmptyParts(u.bl, false);
      GapRead(tp, u);
    } else {
      var f := FirstPart(u.l, u.bl, u.Full?);
      match f
      case Quad =>
        QuadTail(tp, u);
      case Group(t, v) =>
        var w := Rest(u);
        assert u.l == [t] + w.l;
        if u.Full? && |u.l| == 1 {
          assert w.l == [];
          EmptyParts(w.bl, true);
          assert u.bl == TwoBytes(v) && u.l == [t];
          LastGroup(tp, None, t, v);
          OneSeparated(t);
          ClosedFull(tp + TwoBytes(v), 0);
        } else {
          TailNonempty(w, |tp| + 2);
          TailBefore(t, v, w, |tp|);
          GroupColon(tp, None, t, v, w.Text());
          LeftComplete(tp + TwoBytes(v), w);
          assert u == w.Push(t, TwoBytes(v));
          assert tp + TwoBytes(v) + w.Bytes(|tp| + 2) == tp + (TwoBytes(v) + w.Bytes(|tp| + 2));
        }
    }
  }

  /** A dotted quad that ends the address. */
  lemma QuadTail(tp: Bytes, u: Tail)
    requires u.Full? && |u.l| == 1 && QuadForm(u.l[0], u.bl) && |tp| + |u.bl| == 16
    ensures Groups(tp, None, u.Text(), 0, 0, u.Text()) == Some(tp + u.Bytes(|tp|))
  {
    hide Groups, Close, QuadForm;
    assert u.l == [u.l[0]];
    OneSeparated(u.l[0]);
    QuadSize(u.l[0], u.bl);
    var val := QuadRead(tp, None, u.l[0], u.bl);
    ClosedFull(tp + u.bl, val);
  }

  function Rest(u: Tail): Tail
    requires u.l != [] && |u.bl| >= 2
  {
    match u
    case Full(l, bl) => Full(l[1..], bl[2..])
    case Gapped(l, bl, r, br) => Gapped(l[1..], bl[2..], r, br)
  }

  lemma TailNonempty(u: Tail, taken: nat)
    requires u.Ok(taken) && (u.Full? ==> u.l != [])
    ensures u.Text() != ""
  {
    hide Separated, PartsForm;
    if u.l != [] {
      NonemptyParts(u.l, u.bl, u.Full?);
    }
  }

  lemma GapRead(tp: Bytes, u: Tail)
    requires |tp| <= 16 && u.Gapped? && u.l == [] && u.bl == [] && u.Ok(|tp|)
    ensures Groups(tp, None, u.Text(), 0, 0, u.Text()) == Some(tp + u.Bytes(|tp|))
  {
    hide Groups, PartsForm, Separated;
    var s := u.Text();
    assert s[1..] == Separated(u.r, ':');
    GroupsStep(tp, None, s, 0, 0, s);
    RightComplete(tp, |tp|, u.r, u.br);
    assert tp[..|tp|] == tp && tp[|tp|..] == [];
    var gap := Gap(16 - |tp| - |u.br|);
    assert tp + gap + [] + u.br == tp + ([] + gap + u.br);
  }

  // ---- Exactly the addresses

  lemma FormOfTail(u: Tail)
    requires u.Ok(0)
    ensures u.Full? ==> AddressForm(u.Text(), u.Bytes(0))
    ensures u.Gapped? ==> AddressForm((if u.l == [] then [':'] else []) + u.Text(), u.Bytes(0))
  {
    hide PartsForm, Separated;
    match u
    case Full(_, _) =>
    case Gapped(l, bl, r, br) =>
      var b := u.Bytes(0);
      assert b[..|bl|] == bl && b[16 - |br|..] == br;
      var s := (if u.l == [] then [':'] else []) + u.Text();
      NoneSeparated();
      assert s == Separated(l, ':') + [':', ':'] + Separated(r, ':');
      assert GapForm(s, b, l, r, |bl|, |br|);
  }

  lemma GapFirst(u: Tail)
    ensures u.Gapped? && u.l == [] ==> u.Text() != "" && u.Text()[0] == ':'
  {
  }

  lemma Pton6Sound(s: string, b: Bytes)
    requires Pton6(s) == Some(b)
    ensures AddressForm(s, b)
  {
    hide Groups, PartsForm, Separated, AddressForm;
    NoHex();
    if s != "" && s[0] == ':' {
      assert "" + s[1..] == s[1..] && "" + s[2..] == s[2..] && s[1..][1..] == s[2..];
      GroupsStep([], None, s[1..], 0, 0, s[1..]);
      var r, br := RightSound([], 0, "", 0, s[2..], b);
      var u := LeftGap([], s[1..], r, br);
      assert s == [':'] + s[1..];
      assert [] + u.Bytes(0) == u.Bytes(0);
      FormOfTail(u);
    } else {
      assert "" + s == s;
      var u := LeftSound([], "", 0, s, b);
      GapFirst(u);
      assert [] + u.Text() == u.Text() && [] + u.Bytes(0) == u.Bytes(0);
      FormOfTail(u);
    }
  }

  lemma Pton6Complete(s: string, b: Bytes)
    requires AddressForm(s, b)
    ensures Pton6(s) == Some(b)
  {
    hide Groups, PartsForm, Separated, FullForm, GapForm;
    if FullForm(s, b) {
      FullRead(s, b);
    } else {
      var l, r, n, m :| GapForm(s, b, l, r, n, m);
      GappedRead(s, b, l, r, n, m);
    }
  }

  lemma FullRead(s: string, b: Bytes)
    requires |b| == 16 && FullForm(s, b)
    ensures Pton6(s) == Some(b)
  {
    hide Groups, PartsForm, Separated;
    var parts: seq<string> :| s == Separated(parts, ':') && PartsForm(parts, b, true);
    EmptyParts(b, true);
    NonemptyParts(parts, b, true);
    LeftComplete([], Full(parts, b));
    assert [] + b == b;
  }

  lemma GappedRead(s: string, b: Bytes, l: seq<string>, r: seq<string>, n: nat, m: nat)
    requires GapForm(s, b, l, r, n, m)
    ensures Pton6(s) == Some(b)
  {
    hide Groups, PartsForm, Separated;
    var u := Gapped(l, b[..n], r, b[16 - m..]);
    assert b == b[..n] + b[n..16 - m] + b[16 - m..];
    assert b[n..16 - m] == Gap(16 - n - m);
    LeftComplete([], u);
    assert [] + b == b;
    if l == [] {
      NoneSeparated();
      assert s[1..] == u.Text();
    } else {
      NonemptyParts(l, b[..n], false);
      assert s == u.Text();
    }
  }

  /** inet_pton6 accepts exactly the addresses, and gives their bytes. */
  lemma Pton6Iff(s: string, b: Bytes)
    ensures Pton6(s) == Some(b) <==> AddressForm(s, b)
  {
    hide Pton6, AddressForm;
    if Pton6(s) == Some(b) {
      Pton6Sound(s, b);
    }
    if AddressForm(s, b) {
      Pton6Complete(s, b);
    }
  }

  lemma {:induction false} PercentCuts(s: string)
    ensures var p := Percent(s); Clean(s[..p]) && (p < |s| ==> s[p] == '%')
  {
    if s != "" && s[0] != '%' {
      PercentCuts(s[1..]);
      var p := Percent(s[1..]);
      assert s[..p + 1] == [s[0]] + s[1..][..p];
    }
  }

  /** uv_inet_pton accepts exactly the addresses with or without a scope. */
  lemma UvPton6Iff(s: string, b: Bytes)
    ensures UvPton6(s) == Some(b) <==> ScopedForm(s, b)
  {
    hide Pton6, AddressForm, Percent, Clean;
    var p := Percent(s);
    PercentCuts(s);
    if UvPton6(s) == Some(b) {
      Pton6Iff(s[..p], b);
      assert s == s[..p] + s[p..];
      assert s[p..] == "" || (s[p..][0] == '%' && |s[..p]| <= 45);
    }
    if ScopedForm(s, b) {
      var text: string, zone: string :|
        && s == text + zone && Clean(text) && AddressForm(text, b)
        && (zone == "" || (zone[0] == '%' && |text| <= 45));
      NoPercent(text, zone);
      assert s[..|text|] == text;
      Pton6Iff(text, b);
    }
  }

  // ---- The texts that are written

  /** What `%x` and inet_ntop write: no capitals. */
  predicate Lower(t: string) {
    forall i :: 0 <= i < |t| ==> '0' <= t[i] <= '9' || 'a' <= t[i] <= 'f' || t[i] == ':' || t[i] == '.'
  }

  /** A word is written without capitals and leading zeros. */
  lemma {:induction false} HexWritten(w: nat)
    ensures HexNumber(Hex(w), w) && Lower(Hex(w)) && (Hex(w)[0] == '0' ==> Hex(w) == "0")
    ensures w < 0x10 ==> |Hex(w)| == 1
    ensures w < 0x100 ==> |Hex(w)| <= 2
    ensures w < 0x1000 ==> |Hex(w)| <= 3
    ensures w < 0x1_0000 ==> GroupForm(Hex(w), w)
  {
    if w >= 16 {
      HexWritten(w / 16);
      HexGrows(Hex(w / 16), w / 16, HexChar(w % 16), w % 16);
    } else {
      HexGrows("", 0, HexChar(w), w);
      assert "" + [HexChar(w)] == Hex(w);
    }
  }

  lemma LowerJoined(a: string, b: string)
    requires Lower(a) && Lower(b)
    ensures Lower(a + b)
  {
  }

  lemma {:induction false} DigitsLower(n: nat)
    ensures Lower(Digits(n))
  {
    if n >= 10 {
      DigitsLower(n / 10);
      LowerJoined(Digits(n / 10), [Digit(n % 10)]);
    }
  }

  lemma DottedLower(b: Bytes)
    requires |b| == 4
    ensures Lower(Dotted(b))
  {
    hide Digits;
    DigitsLower(b[0]);
    DigitsLower(b[1]);
    DigitsLower(b[2]);
    DigitsLower(b[3]);
  }

  lemma {:induction false} GroupsLower(w: seq<nat>)
    ensures Lower(Joined(w))
  {
    hide Hex;
    if w != [] {
      HexWritten(w[0]);
      GroupsLower(w[1..]);
    }
  }

  /** inet_ntop4 writes the dotted quad of the four octets. */
  lemma DottedWritten(b: Bytes)
    requires |b| == 4
    ensures QuadForm(Dotted(b), b) && Lower(Dotted(b))
  {
    hide Digits, OctetForm, Separated;
    DottedLower(b);
    OctetWritten(b[0]);
    OctetWritten(b[1]);
    OctetWritten(b[2]);
    OctetWritten(b[3]);
    FourSeparated(Digits(b[0]), Digits(b[1]), Digits(b[2]), Digits(b[3]));
    var p := [Digits(b[0]), Digits(b[1]), Digits(b[2]), Digits(b[3])];
    assert Separated(p, '.') == Dotted(b);
  }

  lemma OctetWritten(n: Byte)
    ensures OctetForm(Digits(n), n)
  {
    hide DecNumber;
    DigitsForm(n);
  }

  lemma FourSeparated(a: string, b: string, c: string, d: string)
    ensures Separated([a, b, c, d], '.') == a + ['.'] + b + ['.'] + c + ['.'] + d
  {
    assert [a, b, c, d][1..] == [b, c, d] && [b, c, d][1..] == [c, d] && [c, d][1..] == [d];
    assert Separated([d], '.') == d;
    assert Separated([c, d], '.') == c + ['.'] + d;
    assert Separated([b, c, d], '.') == b + ['.'] + (c + ['.'] + d);
  }

  /** inet_ntop6 writes the address, in small letters. */
  lemma AddressWritten(src: Bytes, text: string)
    requires |src| == 16 && InetText.Shows(WordsOf(src), text)
    ensures AddressForm(text, src) && Lower(text)
  {
    hide Pton6, AddressForm, Hex, Joined, Dotted, Best;
    AddressRoundTrip(src, text);
    Pton6Iff(text, src);
    var w := WordsOf(src);
    var r: Run :| Best(w, r) && text == TextWith(w, r);
    HexWritten(w[5]);
    GroupsLower(w);
    DottedLower(WordBytes(w[6..]));
    if r.Run? {
      GroupsLower(w[..r.base]);
      GroupsLower(w[r.base + r.len..]);
    }
  }

  function HexWords(w: seq<nat>): seq<string> {
    seq(|w|, i requires 0 <= i < |w| => Hex(w[i]))
  }

  ghost predicate Zeros(w: seq<nat>, i: nat, n: nat) {
    i + n <= |w| && forall k :: i <= k < i + n ==> w[k] == 0
  }

  /** The first of the longest runs of zeros, of two words at least. */
  ghost predicate LongestRun(w: seq<nat>, b: nat, l: nat) {
    && l >= 2 && Zeros(w, b, l)
    && forall i: nat, n: nat :: Zeros(w, i, n) && n > 0 ==> n < l || (n == l && b <= i)
  }

  /** The last two words as four octets. */
  function QuadText(x: nat, y: nat): string {
    Digits(x / 256) + "." + Digits(x % 256) + "." + Digits(y / 256) + "." + Digits(y % 256)
  }

  /** How an address is written: all eight groups, or the longest run of zeros as a double
      colon; an IPv4 address behind six zero words, or behind five and ffff, is dotted. */
  ghost predicate WrittenForm(w: seq<nat>, s: string)
    requires |w| == 8
  {
    || ((forall b: nat, l: nat :: !LongestRun(w, b, l)) && s == Separated(HexWords(w), ':'))
    || exists b: nat, l: nat ::
         && LongestRun(w, b, l) && b + l <= 8
         && s == Separated(HexWords(w[..b]), ':') + "::"
                 + if b == 0 && l == 6 then QuadText(w[6], w[7])
                   else if b == 0 && l == 5 && w[5] == 65535 then "ffff:" + QuadText(w[6], w[7])
                   else Separated(HexWords(w[b + l..]), ':')
  }

  lemma {:induction false} JoinedSeparated(w: seq<nat>)
    ensures Joined(w) == Separated(HexWords(w), ':')
  {
    hide Hex;
    if |w| > 1 {
      JoinedSeparated(w[1..]);
      assert HexWords(w)[1..] == HexWords(w[1..]);
    }
  }

  lemma DottedWords(w: seq<nat>)
    requires Address(w)
    ensures Dotted(WordBytes(w[6..])) == QuadText(w[6], w[7])
  {
    hide Digits;
    var t := w[6..];
    assert t[0] == w[6] && t[1..] == [w[7]] && [w[7]][1..] == [];
    assert WordBytes([w[7]]) == TwoBytes(w[7]) + [];
    assert WordBytes(t) == [w[6] / 256, w[6] % 256, w[7] / 256, w[7] % 256];
  }

  lemma Ffff()
    ensures Hex(65535) == "ffff"
  {
    assert Hex(15) == "f" && Hex(255) == "ff" && Hex(4095) == "fff";
  }

  lemma RunsAreZeros(w: seq<nat>, i: nat, n: nat)
    requires n > 0
    ensures IsRun(w, i, n) <==> Zeros(w, i, n)
  {
  }

  lemma BestIsLongest(w: seq<nat>, b: nat, l: nat)
    ensures LongestRun(w, b, l) <==> Best(w, Run(b, l))
  {
    hide IsRun, Zeros;
    forall i: nat, n: nat | n > 0
      ensures IsRun(w, i, n) <==> Zeros(w, i, n)
    {
      RunsAreZeros(w, i, n);
    }
  }

  /** The longest of the runs, the first of them. */
  lemma NoRunNoLongest(w: seq<nat>)
    ensures Best(w, NoRun) <==> forall b: nat, l: nat :: !LongestRun(w, b, l)
  {
    hide Zeros;
    if Best(w, NoRun) {
      forall b: nat, l: nat
        ensures !LongestRun(w, b, l)
      {
        if l >= 2 {
          RunsAreZeros(w, b, l);
        }
      }
    } else {
      var i: nat, n: nat :| IsRun(w, i, n) && n >= 2;
      RunsAreZeros(w, i, n);
      var b, l := GrowRun(w, i, n);
    }
  }

  lemma {:induction false} GrowRun(w: seq<nat>, b: nat, l: nat) returns (i: nat, n: nat)
    requires Zeros(w, b, l) && l >= 2
    ensures LongestRun(w, i, n)
    decreases |w| - l, b
  {
    hide Zeros;
    if c: nat, m: nat :| Zeros(w, c, m) && m > 0 && (m > l || (m == l && c < b)) {
      RunFits(w, c, m);
      RunFits(w, b, l);
      i, n := GrowRun(w, c, m);
    } else {
      i, n := b, l;
    }
  }

  lemma RunFits(w: seq<nat>, b: nat, l: nat)
    requires Zeros(w, b, l)
    ensures b + l <= |w|
  {
  }

  lemma TextOfRun(w: seq<nat>, b: nat, l: nat)
    requires Address(w) && LongestRun(w, b, l) && b + l <= 8
    ensures TextWith(w, Run(b, l))
         == Separated(HexWords(w[..b]), ':') + "::"
            + if b == 0 && l == 6 then QuadText(w[6], w[7])
              else if b == 0 && l == 5 && w[5] == 65535 then "ffff:" + QuadText(w[6], w[7])
              else Separated(HexWords(w[b + l..]), ':')
  {
    hide Joined, Dotted, Hex, QuadText, LongestRun, Separated, HexWords;
    JoinedSeparated(w[..b]);
    JoinedSeparated(w[b + l..]);
    DottedWords(w);
    Ffff();
    assert Hex(65535) + [':'] == "ffff:";
    assert "" + QuadText(w[6], w[7]) == QuadText(w[6], w[7]);
  }

  /** What inet_ntop6 writes is exactly this form. */
  lemma ShownIff(w: seq<nat>, s: string)
    requires Address(w)
    ensures InetText.Shows(w, s) <==> WrittenForm(w, s)
  {
    hide TextWith, LongestRun, Best, Separated, HexWords, Joined;
    NoRunNoLongest(w);
    JoinedSeparated(w);
    assert TextWith(w, NoRun) == Joined(w) by { NoRunText(w); }
    if InetText.Shows(w, s) {
      var r: Run :| Best(w, r) && s == TextWith(w, r);
      match r
      case NoRun =>
      case Run(b, l) =>
        BestIsLongest(w, b, l);
        TextOfRun(w, b, l);
    }
    if b: nat, l: nat :| LongestRun(w, b, l) && b + l <= 8 && s == TextWith(w, Run(b, l)) {
      BestIsLongest(w, b, l);
    }
    forall b: nat, l: nat | LongestRun(w, b, l) && b + l <= 8
      ensures Best(w, Run(b, l))
    {
      BestIsLongest(w, b, l);
    }
    forall b: nat, l: nat | LongestRun(w, b, l) && b + l <= 8
      ensures TextWith(w, Run(b, l))
         == Separated(HexWords(w[..b]), ':') + "::"
            + if b == 0 && l == 6 then QuadText(w[6], w[7])
              else if b == 0 && l == 5 && w[5] == 65535 then "ffff:" + QuadText(w[6], w[7])
              else Separated(HexWords(w[b + l..]), ':')
    {
      TextOfRun(w, b, l);
    }
  }

  lemma NoRunText(w: seq<nat>)
    requires Address(w)
    ensures TextWith(w, NoRun) == Joined(w)
  {
  }
}
