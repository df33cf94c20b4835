/** Every address is parsed back from its text. */
module InetRoundTrip {
  import opened Basics
  import opened InetText

  // ---- Groups

  function Sixteen(k: nat): nat {
    if k == 0 then 1 else 16 * Sixteen(k - 1)
  }

  lemma {:induction false} HexLength(w: nat, k: nat)
    requires k >= 1 && w < Sixteen(k)
    ensures |Hex(w)| <= k
  {
    if w >= 16 {
      HexLength(w / 16, k - 1);
    }
  }

  lemma HexFits(w: nat)
    requires w < 0x1_0000
    ensures |Hex(w)| <= 4
  {
    assert Sixteen(4) == 0x1_0000 by {
      assert Sixteen(1) == 16 && Sixteen(2) == 256 && Sixteen(3) == 0x1000;
    }
    HexLength(w, 4);
  }

  /** One digit of a group. */
  lemma DigitReads(tp: Bytes, colon: Option<nat>, token: string, seen: nat, val: nat, c: char, t: string)
    requires |tp| <= 16 && (colon.Some? ==> colon.value <= |tp|) && HexDigit(c).Some? && seen < 4
    ensures Groups(tp, colon, token, seen, val, [c] + t)
         == Groups(tp, colon, token, seen + 1, val * 16 + HexDigit(c).value, t)
  {
    assert ([c] + t)[1..] == t;
  }

  lemma {:induction false} HexReads(tp: Bytes, colon: Option<nat>, token: string, w: nat, t: string)
    requires |tp| <= 16 && (colon.Some? ==> colon.value <= |tp|) && |Hex(w)| <= 4
    ensures Groups(tp, colon, token, 0, 0, Hex(w) + t) == Groups(tp, colon, token, |Hex(w)|, w, t)
    decreases w
  {
    hide Groups;
    if w < 16 {
      DigitReads(tp, colon, token, 0, 0, HexChar(w), t);
    } else {
      HexReads(tp, colon, token, w / 16, [HexChar(w % 16)] + t);
      assert Hex(w) + t == Hex(w / 16) + ([HexChar(w % 16)] + t);
      DigitReads(tp, colon, token, |Hex(w / 16)|, w / 16, HexChar(w % 16), t);
    }
  }

  /** A group and the colon after it. */
  lemma GroupReads(tp: Bytes, colon: Option<nat>, token: string, w: nat, rest: string)
    requires |tp| + 2 <= 16 && (colon.Some? ==> colon.value <= |tp|) && w < 0x1_0000 && rest != ""
    ensures Groups(tp, colon, token, 0, 0, Hex(w) + ([':'] + rest)) == Groups(tp + TwoBytes(w), colon, rest, 0, 0, rest)
  {
    HexFits(w);
    HexReads(tp, colon, token, w, [':'] + rest);
    assert ([':'] + rest)[1..] == rest;
  }

  /** The last group. */
  lemma LastReads(tp: Bytes, colon: Option<nat>, token: string, w: nat)
    requires |tp| + 2 <= 16 && (colon.Some? ==> colon.value <= |tp|) && w < 0x1_0000
    ensures Groups(tp, colon, token, 0, 0, Hex(w)) == Close(tp + TwoBytes(w), colon, 0, 0)
  {
    HexFits(w);
    HexReads(tp, colon, token, w, "");
    assert Hex(w) + "" == Hex(w);
  }

  ghost predicate Small(w: seq<nat>) {
    forall i :: 0 <= i < |w| ==> w[i] < 0x1_0000
  }

  lemma BytesStep(tp: Bytes, w: seq<nat>)
    requires w != []
    ensures tp + WordBytes(w) == tp + TwoBytes(w[0]) + WordBytes(w[1..])
    ensures tp + WordBytes([]) == tp
  {
  }

  /** Groups up to the end of the text. */
  lemma {:induction false} TailReads(tp: Bytes, colon: Option<nat>, token: string, w: seq<nat>)
    requires |tp| + 2 * |w| <= 16 && (colon.Some? ==> colon.value <= |tp|) && Small(w)
    ensures Groups(tp, colon, token, 0, 0, Joined(w)) == Close(tp + WordBytes(w), colon, 0, 0)
    decreases w
  {
    if w == [] {
      assert tp + [] == tp;
    } else {
      hide Groups, Close, Hex, WordBytes, Joined, TwoBytes;
      BytesStep(tp, w);
      JoinedSplit(w, "");
      assert Joined(w) + "" == Joined(w) && Hex(w[0]) + "" == Hex(w[0]);
      if |w| == 1 {
        LastReads(tp, colon, token, w[0]);
        BytesStep(tp + TwoBytes(w[0]), w);
      } else {
        JoinedNonempty(w[1..]);
        assert Joined(w[1..]) + "" == Joined(w[1..]);
        GroupReads(tp, colon, token, w[0], Joined(w[1..]));
        TailReads(tp + TwoBytes(w[0]), colon, Joined(w[1..]), w[1..]);
      }
    }
  }

  lemma JoinedNonempty(w: seq<nat>)
    requires w != []
    ensures Joined(w) != ""
  {
  }

  lemma Assoc(a: string, b: string, c: string)
    ensures a + b + c == a + (b + c)
  {
  }

  lemma JoinedSplit(w: seq<nat>, t: string)
    requires w != []
    ensures |w| == 1 ==> Joined(w) + t == Hex(w[0]) + t && w[1..] == []
    ensures |w| > 1 ==> Joined(w) + t == Hex(w[0]) + ([':'] + (Joined(w[1..]) + t))
  {
    hide Hex;
    if |w| > 1 {
      Assoc(Hex(w[0]), [':'], Joined(w[1..]));
      Assoc(Hex(w[0]), [':'] + Joined(w[1..]), t);
      Assoc([':'], Joined(w[1..]), t);
    }
  }

  /** The last group before a double colon. */
  lemma FrontLast(tp: Bytes, token: string, w: nat, rest: string)
    requires |tp| + 2 <= 16 && w < 0x1_0000
    ensures Groups(tp, None, token, 0, 0, Hex(w) + ([':', ':'] + rest))
         == Groups(tp + TwoBytes(w), Some(|tp| + 2), rest, 0, 0, rest)
  {
    hide Groups, Hex;
    assert [':', ':'] + rest == [':'] + ([':'] + rest);
    GroupReads(tp, None, token, w, [':'] + rest);
    ColonReads(tp + TwoBytes(w), [':'] + rest, rest);
  }

  /** Groups up to a double colon. */
  lemma {:induction false} FrontReads(tp: Bytes, token: string, w: seq<nat>, rest: string)
    requires w != [] && |tp| + 2 * |w| <= 16 && Small(w)
    ensures Groups(tp, None, token, 0, 0, Joined(w) + ([':', ':'] + rest))
         == Groups(tp + WordBytes(w), Some(|tp| + 2 * |w|), rest, 0, 0, rest)
    decreases w
  {
    var next := tp + TwoBytes(w[0]);
    assert |next| == |tp| + 2;
    hide Groups, Hex, WordBytes, Joined, TwoBytes;
    BytesStep(tp, w);
    var two := [':', ':'] + rest;
    JoinedSplit(w, two);
    if |w| == 1 {
      FrontLast(tp, token, w[0], rest);
      BytesStep(next, w);
    } else {
      GroupReads(tp, None, token, w[0], Joined(w[1..]) + two);
      FrontReads(next, Joined(w[1..]) + two, w[1..], rest);
    }
  }

  lemma ColonReads(tp: Bytes, token: string, rest: string)
    requires |tp| <= 16
    ensures Groups(tp, None, token, 0, 0, [':'] + rest) == Groups(tp, Some(|tp|), rest, 0, 0, rest)
  {
    assert ([':'] + rest)[1..] == rest;
  }

  // ---- Dotted tails

  lemma {:induction false} DecLength(n: nat)
    requires n < 1000
    ensures |Digits(n)| <= 3
  {
    if n >= 10 {
      assert Digits(n / 10) == if n / 10 < 10 then ['0' + (n / 10) as char]
                               else Digits(n / 100) + ['0' + (n / 10 % 10) as char];
    }
  }

  /** The digits of an octet look like hexadecimal digits at first. */
  lemma {:induction false} DecAsHex(tp: Bytes, colon: Option<nat>, token: string, n: nat, t: string) returns (val: nat)
    requires |tp| <= 16 && (colon.Some? ==> colon.value <= |tp|) && |Digits(n)| <= 4
    ensures Groups(tp, colon, token, 0, 0, Digits(n) + t) == Groups(tp, colon, token, |Digits(n)|, val, t)
    decreases n
  {
    hide Groups;
    if n < 10 {
      DigitReads(tp, colon, token, 0, 0, '0' + n as char, t);
      val := n;
    } else {
      var c := '0' + (n % 10) as char;
      var v := DecAsHex(tp, colon, token, n / 10, [c] + t);
      assert Digits(n) + t == Digits(n / 10) + ([c] + t);
      DigitReads(tp, colon, token, |Digits(n / 10)|, v, c, t);
      val := v * 16 + n % 10;
    }
  }

  lemma OctetDigit(t: Bytes, octets: nat, saw: bool, d: nat, s: string)
    requires |t| > 0 && d < 10
    ensures Octets(t, octets, saw, ['0' + d as char] + s)
         == var last := t[|t| - 1];
            if (saw && last == 0) || last as int * 10 + d > 255 || (!saw && octets + 1 > 4) then None
            else Octets(t[|t| - 1 := last as int * 10 + d], if saw then octets else octets + 1, true, s)
  {
    assert (['0' + d as char] + s)[1..] == s;
  }

  /** An octet is read as written, with no leading zero. */
  lemma {:induction false} DecReads(t: Bytes, octets: nat, n: nat, s: string)
    requires |t| > 0 && t[|t| - 1] == 0 && n < 256 && octets < 4
    ensures Octets(t, octets, false, Digits(n) + s) == Octets(t[|t| - 1 := n], octets + 1, true, s)
    decreases n
  {
    hide Octets;
    if n < 10 {
      OctetDigit(t, octets, false, n, s);
    } else {
      var c := ['0' + (n % 10) as char];
      DecReads(t, octets, n / 10, c + s);
      assert Digits(n) + s == Digits(n / 10) + (c + s);
      var u := t[|t| - 1 := n / 10];
      OctetDigit(u, octets + 1, true, n % 10, s);
      assert u[|u| - 1 := n] == t[|t| - 1 := n];
    }
  }

  lemma DotReads(t: Bytes, octets: nat, s: string)
    requires |t| > 0 && octets != 4
    ensures Octets(t, octets, true, ['.'] + s) == Octets(t + [0], octets, false, s)
  {
    assert (['.'] + s)[1..] == s;
  }

  /** A dotted address comes back from its text. */
  lemma DottedReads(b: Bytes)
    requires |b| == 4
    ensures Pton4(Dotted(b)) == Some(b)
  {
    hide Octets, Digits;
    var s3 := Digits(b[3]);
    var s2 := Digits(b[2]) + (['.'] + s3);
    var s1 := Digits(b[1]) + (['.'] + s2);
    assert Dotted(b) == Digits(b[0]) + (['.'] + s1);
    DecReads([0], 0, b[0], ['.'] + s1);
    assert [0][0 := b[0]] == [b[0]];
    DotReads([b[0]], 1, s1);
    assert [b[0]] + [0] == [b[0], 0];
    DecReads([b[0], 0], 1, b[1], ['.'] + s2);
    assert [b[0], 0][1 := b[1]] == [b[0], b[1]];
    DotReads([b[0], b[1]], 2, s2);
    assert [b[0], b[1]] + [0] == [b[0], b[1], 0];
    DecReads([b[0], b[1], 0], 2, b[2], ['.'] + s3);
    assert [b[0], b[1], 0][2 := b[2]] == [b[0], b[1], b[2]];
    DotReads([b[0], b[1], b[2]], 3, s3);
    assert [b[0], b[1], b[2]] + [0] == [b[0], b[1], b[2], 0];
    DecReads([b[0], b[1], b[2], 0], 3, b[3], "");
    assert s3 + "" == s3;
    assert [b[0], b[1], b[2], 0][3 := b[3]] == b;
    OctetsEnd(b);
  }

  lemma OctetsEnd(b: Bytes)
    requires |b| > 0
    ensures Octets(b, 4, true, "") == Some(b)
  {
  }

  /** A dotted tail, read at the start of a group. */
  lemma DottedTail(tp: Bytes, colon: Option<nat>, b: Bytes)
    requires |tp| + 4 <= 16 && (colon.Some? ==> colon.value <= |tp|) && |b| == 4
    ensures Groups(tp, colon, Dotted(b), 0, 0, Dotted(b)) == Close(tp + b, colon, 0, 0)
  {
    var t := ['.'] + (Digits(b[1]) + ['.'] + Digits(b[2]) + ['.'] + Digits(b[3]));
    assert Dotted(b) == Digits(b[0]) + t;
    DecLength(b[0]);
    var val := DecAsHex(tp, colon, Dotted(b), b[0], t);
    DottedReads(b);
    DotStep(tp, colon, Dotted(b), |Digits(b[0])|, val, t, b);
  }

  lemma DotStep(tp: Bytes, colon: Option<nat>, token: string, seen: nat, val: nat, t: string, b: Bytes)
    requires |tp| + 4 <= 16 && (colon.Some? ==> colon.value <= |tp|)
    requires t != "" && t[0] == '.' && Pton4(token) == Some(b)
    ensures Groups(tp, colon, token, seen, val, t) == Close(tp + b, colon, 0, 0)
  {
  }

  // ---- Whole addresses

  lemma {:induction false} BytesJoin(a: seq<nat>, b: seq<nat>)
    ensures WordBytes(a + b) == WordBytes(a) + WordBytes(b)
  {
    if a == [] {
      assert a + b == b;
    } else {
      assert (a + b)[1..] == a[1..] + b;
      BytesJoin(a[1..], b);
      assert TwoBytes(a[0]) + (WordBytes(a[1..]) + WordBytes(b)) == TwoBytes(a[0]) + WordBytes(a[1..]) + WordBytes(b);
    }
  }

  lemma {:induction false} ZeroBytes(w: seq<nat>)
    requires forall i :: 0 <= i < |w| ==> w[i] == 0
    ensures WordBytes(w) == seq(2 * |w|, _ => 0)
  {
    if w != [] {
      ZeroBytes(w[1..]);
      assert WordBytes(w) == [0, 0] + WordBytes(w[1..]);
    }
  }

  lemma CloseGap(x: Bytes, z: Bytes)
    requires |x| + |z| < 16
    ensures Close(x + z, Some(|x|), 0, 0) == Some(x + seq(16 - |x| - |z|, _ => 0) + z)
  {
    assert (x + z)[..|x|] == x && (x + z)[|x|..] == z;
  }

  lemma GapBytes(w: seq<nat>, b: nat, l: nat)
    requires Address(w) && IsRun(w, b, l)
    ensures WordBytes(w) == WordBytes(w[..b]) + seq(2 * l, _ => 0) + WordBytes(w[b + l..])
  {
    var x, y, z := w[..b], w[b..b + l], w[b + l..];
    ZeroBytes(y);
    BytesJoin(x + y, z);
    BytesJoin(x, y);
    assert w == x + y + z;
  }

  /** Closing over the gap puts the zero words back. */
  lemma GapCloses(w: seq<nat>, b: nat, l: nat)
    requires Address(w) && IsRun(w, b, l) && l >= 1
    ensures Close(WordBytes(w[..b]) + WordBytes(w[b + l..]), Some(2 * b), 0, 0) == Some(WordBytes(w))
  {
    hide WordBytes, Close;
    GapBytes(w, b, l);
    CloseGap(WordBytes(w[..b]), WordBytes(w[b + l..]));
  }

  /** What follows the double colon. */
  function AfterGap(w: seq<nat>, b: nat, l: nat): string
    requires Address(w) && b + l <= 8
  {
    if Dots(w, Run(b, l)) then (if l == 6 then "" else Hex(w[5]) + [':']) + Dotted(WordBytes(w[6..]))
    else Joined(w[b + l..])
  }

  lemma AfterGapReads(tp: Bytes, colon: Option<nat>, w: seq<nat>, b: nat, l: nat)
    requires Address(w) && b + l <= 8 && |tp| == 2 * b && (colon.Some? ==> colon.value <= |tp|)
    ensures var s := AfterGap(w, b, l);
            Groups(tp, colon, s, 0, 0, s) == Close(tp + WordBytes(w[b + l..]), colon, 0, 0)
  {
    hide Groups, Close, Dotted, Hex;
    var s := AfterGap(w, b, l);
    if !Dots(w, Run(b, l)) {
      TailReads(tp, colon, s, w[b + l..]);
    } else if l == 6 {
      assert s == Dotted(WordBytes(w[6..]));
      DottedTail(tp, colon, WordBytes(w[6..]));
    } else {
      var d := Dotted(WordBytes(w[6..]));
      DottedNonempty(WordBytes(w[6..]));
      assert s == Hex(w[5]) + ([':'] + d);
      GroupReads(tp, colon, s, w[5], d);
      DottedTail(tp + TwoBytes(w[5]), colon, WordBytes(w[6..]));
      assert w[5..] == [w[5]] + w[6..];
      assert WordBytes(w[5..]) == TwoBytes(w[5]) + WordBytes(w[6..]);
      assert tp + TwoBytes(w[5]) + WordBytes(w[6..]) == tp + (TwoBytes(w[5]) + WordBytes(w[6..]));
    }
  }

  lemma DottedNonempty(b: Bytes)
    requires |b| == 4
    ensures Dotted(b) != ""
  {
  }

  lemma {:induction false} HexFirst(w: nat)
    ensures HexDigit(Hex(w)[0]).Some? && Hex(w)[0] != ':'
  {
    if w >= 16 {
      HexFirst(w / 16);
      assert Hex(w)[0] == Hex(w / 16)[0];
    }
  }

  lemma PlainStart(s: string)
    requires s != "" && s[0] != ':'
    ensures Pton6(s) == Groups([], None, s, 0, 0, s)
  {
  }

  lemma TextShape(w: seq<nat>, b: nat, l: nat)
    requires Address(w) && b + l <= 8
    ensures TextWith(w, Run(b, l)) == Joined(w[..b]) + ([':', ':'] + AfterGap(w, b, l))
    ensures b == 0 ==> TextWith(w, Run(b, l)) == [':', ':'] + AfterGap(w, b, l)
  {
    assert TextWith(w, Run(b, l)) == Joined(w[..b]) + [':', ':'] + AfterGap(w, b, l);
    assert Joined([]) == "";
    hide Hex, Dotted, Joined, TextWith, AfterGap;
    Assoc(Joined(w[..b]), [':', ':'], AfterGap(w, b, l));
    if b == 0 {
      assert w[..0] == [];
    }
  }

  lemma JoinedStart(w: seq<nat>, t: string)
    requires w != []
    ensures (Joined(w) + t) != "" && (Joined(w) + t)[0] != ':'
  {
    HexFirst(w[0]);
    assert Joined(w)[0] == Hex(w[0])[0];
    assert (Joined(w) + t)[0] == Joined(w)[0];
  }

  lemma FromGap(w: seq<nat>, l: nat)
    requires Address(w) && IsRun(w, 0, l) && l >= 1
    ensures Pton6([':', ':'] + AfterGap(w, 0, l)) == Some(WordBytes(w))
  {
    var rest := AfterGap(w, 0, l);
    var s := [':', ':'] + rest;
    assert s[1..] == [':'] + rest;
    NoBytes();
    assert w[..0] == [];
    GapCloses(w, 0, l);
    hide Groups, Close, Hex, WordBytes, Dotted, AfterGap;
    ColonReads([], s[1..], rest);
    AfterGapReads([], Some(0), w, 0, l);
  }

  lemma AcrossGap(w: seq<nat>, b: nat, l: nat)
    requires Address(w) && IsRun(w, b, l) && l >= 1 && b > 0
    ensures Pton6(Joined(w[..b]) + ([':', ':'] + AfterGap(w, b, l))) == Some(WordBytes(w))
  {
    hide Groups, Close, Hex, Joined, WordBytes, Dotted, AfterGap;
    var rest := AfterGap(w, b, l);
    var s := Joined(w[..b]) + ([':', ':'] + rest);
    GapCloses(w, b, l);
    JoinedStart(w[..b], [':', ':'] + rest);
    PlainStart(s);
    FrontReads([], s, w[..b], rest);
    assert [] + WordBytes(w[..b]) == WordBytes(w[..b]);
    AfterGapReads(WordBytes(w[..b]), Some(2 * b), w, b, l);
  }

  /** inet_pton6 undoes inet_ntop6, whichever run of zeros was compressed. */
  lemma TextParses(w: seq<nat>, r: Run)
    requires Address(w) && (r.Run? ==> r.len >= 1 && IsRun(w, r.base, r.len))
    ensures Pton6(TextWith(w, r)) == Some(WordBytes(w))
  {
    hide Groups, Close, Hex, Joined, WordBytes, Dotted, AfterGap, Pton6;
    match r
    case NoRun =>
      var s := Joined(w);
      JoinedStart(w, "");
      assert s + "" == s;
      PlainStart(s);
      TailReads([], None, s, w);
      WholeCloses(w);
    case Run(b, l) =>
      TextShape(w, b, l);
      if b == 0 {
        FromGap(w, l);
      } else {
        AcrossGap(w, b, l);
      }
  }

  lemma NoBytes()
    ensures WordBytes([]) == []
  {
  }

  lemma WholeCloses(w: seq<nat>)
    requires Address(w)
    ensures Close([] + WordBytes(w), None, 0, 0) == Some(WordBytes(w))
  {
    assert [] + WordBytes(w) == WordBytes(w);
  }
}
