/** inet_ntop and inet_pton: the scanning and formatting loops. */
module Inet {
  import opened Basics
  import opened CBuffer
  import opened InetRoundTrip
  import opened InetText
  import opened Words

  // ---- The longest run of zeros

  /** The best among the runs that end by `i` and start before `from`. */
  ghost predicate BestBefore(w: seq<nat>, best: Run, i: nat, from: nat) {
    && (best.Run? ==> best.len >= 1 && best.base + best.len <= i && IsRun(w, best.base, best.len))
    && forall a: nat, n: nat :: n >= 1 && a < from && a + n <= i && IsRun(w, a, n) ==>
         best.Run? && (n < best.len || (n == best.len && best.base <= a))
  }

  /** `cur` is the run that ends at `i`, as long as it can be. */
  ghost predicate Current(w: seq<nat>, cur: Run, i: nat)
    requires i <= |w|
  {
    match cur
    case NoRun => i > 0 ==> w[i - 1] != 0
    case Run(b, l) => l >= 1 && b + l == i && IsRun(w, b, l) && (b > 0 ==> w[b - 1] != 0)
  }

  function Better(best: Run, cur: Run): Run {
    if cur.Run? && (best == NoRun || cur.len > best.len) then cur else best
  }

  /** The current run is closed: it competes with the best so far. */
  lemma Closed(w: seq<nat>, best: Run, cur: Run, i: nat)
    requires i <= |w| && Current(w, cur, i) && BestBefore(w, best, i, if cur.Run? then cur.base else i)
    ensures BestBefore(w, Better(best, cur), i, i)
  {
    forall a: nat, n: nat | n >= 1 && a < i && a + n <= i && IsRun(w, a, n)
      ensures var r := Better(best, cur); r.Run? && (n < r.len || (n == r.len && r.base <= a))
    {
    }
  }

  lemma ZeroInside(w: seq<nat>, a: nat, n: nat, i: nat)
    requires IsRun(w, a, n) && i < |w|
    ensures a <= i < a + n ==> w[i] == 0
  {
  }

  /** A word that is not zero ends every run before it. */
  lemma NoRunAcross(w: seq<nat>, best: Run, i: nat)
    requires i < |w| && w[i] != 0 && BestBefore(w, best, i, i)
    ensures BestBefore(w, best, i + 1, i + 1)
  {
    forall a: nat, n: nat | n >= 1 && a < i + 1 && a + n <= i + 1 && IsRun(w, a, n)
      ensures best.Run? && (n < best.len || (n == best.len && best.base <= a))
    {
      ZeroInside(w, a, n, i);
      assert a + n <= i && a < i;
    }
  }

  /** The scan of inet_ntop6. */
  method LongestZeros(w: seq<nat>) returns (best: Run)
    ensures Best(w, best)
  {
    best := NoRun;
    var cur := NoRun;
    var i := 0;
    while i < |w|
      invariant 0 <= i <= |w| && Current(w, cur, i)
      invariant BestBefore(w, best, i, if cur.Run? then cur.base else i)
    {
      if w[i] == 0 {
        cur := if cur == NoRun then Run(i, 1) else Run(cur.base, cur.len + 1);
      } else {
        Closed(w, best, cur, i);
        if cur.Run? {
          if best == NoRun || cur.len > best.len {
            best := cur;
          }
          cur := NoRun;
        }
        NoRunAcross(w, best, i);
      }
      i := i + 1;
    }
    Closed(w, best, cur, i);
    if cur.Run? {
      if best == NoRun || cur.len > best.len {
        best := cur;
      }
    }
    AllRuns(w, best);
    if best.Run? && best.len < 2 {
      best := NoRun;
    }
  }

  lemma AllRuns(w: seq<nat>, best: Run)
    requires BestBefore(w, best, |w|, |w|)
    ensures forall a: nat, n: nat :: n >= 1 && IsRun(w, a, n) ==>
              best.Run? && (n < best.len || (n == best.len && best.base <= a))
  {
    forall a: nat, n: nat | n >= 1 && IsRun(w, a, n)
      ensures best.Run? && (n < best.len || (n == best.len && best.base <= a))
    {
      assert a + n <= |w| && a < |w|;
    }
  }

  // ---- Formatting

  /** The text after `i` words: nothing inside the run but a colon where it starts. */
  function Part(w: seq<nat>, r: Run, i: nat): string
    requires i <= |w|
  {
    if i == 0 then ""
    else
      var before := Part(w, r, i - 1);
      if r.Run? && r.base <= i - 1 < r.base + r.len then
        if i - 1 == r.base then before + [':'] else before
      else before + (if i - 1 != 0 then [':'] else []) + Hex(w[i - 1])
  }

  lemma {:induction false} JoinedAppend(w: seq<nat>, x: nat)
    ensures Joined(w + [x]) == Joined(w) + (if w != [] then [':'] else []) + Hex(x)
  {
    if w == [] {
      assert [] + [x] == [x];
      assert "" + [] + Hex(x) == Hex(x);
    } else if |w| == 1 {
      assert (w + [x])[1..] == [x];
    } else {
      assert (w + [x])[1..] == w[1..] + [x];
      JoinedAppend(w[1..], x);
      assert Hex(w[0]) + [':'] + (Joined(w[1..]) + [':'] + Hex(x))
          == Hex(w[0]) + [':'] + Joined(w[1..]) + [':'] + Hex(x);
    }
  }

  /** Before the run, or without one, the words are simply joined. */
  lemma {:induction false} PartBefore(w: seq<nat>, r: Run, i: nat)
    requires i <= |w| && (r.Run? ==> i <= r.base)
    ensures Part(w, r, i) == Joined(w[..i])
  {
    hide Hex;
    if i > 0 {
      PartBefore(w, r, i - 1);
      JoinedAppend(w[..i - 1], w[i - 1]);
      assert w[..i] == w[..i - 1] + [w[i - 1]];
    }
  }

  lemma {:induction false} PartInside(w: seq<nat>, r: Run, i: nat)
    requires i <= |w| && r.Run? && r.base < i <= r.base + r.len
    ensures Part(w, r, i) == Joined(w[..r.base]) + [':']
  {
    if i == r.base + 1 {
      PartBefore(w, r, r.base);
    } else {
      PartInside(w, r, i - 1);
    }
  }

  lemma PartOutside(w: seq<nat>, r: Run, i: nat)
    requires 0 < i < |w| && r.Run? && r.base + r.len <= i
    ensures Part(w, r, i + 1) == Part(w, r, i) + [':'] + Hex(w[i])
  {
    hide Hex;
  }

  lemma AnotherGroup(a: string, j: string, h: string)
    ensures a + [':'] + [':'] + j + [':'] + h == a + [':'] + [':'] + (j + [':'] + h)
  {
  }

  /** After the run every word brings its colon. */
  lemma {:induction false} PartAfter(w: seq<nat>, r: Run, i: nat)
    requires i <= |w| && r.Run? && r.len >= 1 && r.base + r.len < i
    ensures Part(w, r, i) == Joined(w[..r.base]) + [':'] + [':'] + Joined(w[r.base + r.len..i])
  {
    hide Hex, Part, Joined;
    var e := r.base + r.len;
    PartOutside(w, r, i - 1);
    JoinedAppend(w[e..i - 1], w[i - 1]);
    assert w[e..i] == w[e..i - 1] + [w[i - 1]];
    if i == e + 1 {
      PartInside(w, r, e);
      assert w[e..e] == [];
      NothingJoined();
      assert "" + [] + Hex(w[e]) == Hex(w[e]);
    } else {
      PartAfter(w, r, i - 1);
      assert w[e..i - 1] != [];
      AnotherGroup(Joined(w[..r.base]), Joined(w[e..i - 1]), Hex(w[i - 1]));
    }
  }

  lemma TwoColons(a: string, b: string)
    ensures a + [':'] + [':'] + b == a + [':', ':'] + b
    ensures a + [':'] + [':'] == a + [':', ':'] + ""
  {
  }

  /** After all eight words, with the colon of a run at the end. */
  lemma PartsAreText(w: seq<nat>, r: Run)
    requires Address(w) && (r.Run? ==> r.len >= 1 && r.base + r.len <= 8) && !Dots(w, r)
    ensures TextWith(w, r) == Part(w, r, 8) + (if r.Run? && r.base + r.len == 8 then [':'] else [])
  {
    hide Hex, Joined, Part;
    if r == NoRun {
      PartBefore(w, r, 8);
      assert w[..8] == w && Joined(w) + [] == Joined(w);
    } else if r.base + r.len == 8 {
      PartInside(w, r, 8);
      TwoColons(Joined(w[..r.base]), "");
      assert w[8..] == [];
      NothingJoined();
    } else {
      PartAfter(w, r, 8);
      TwoColons(Joined(w[..r.base]), Joined(w[r.base + r.len..]));
      assert w[r.base + r.len..8] == w[r.base + r.len..];
      assert Part(w, r, 8) + [] == Part(w, r, 8);
    }
  }

  lemma NothingJoined()
    ensures Joined([]) == ""
  {
  }

  /** With a dotted tail the loop stops after six words. */
  lemma PartsAreDotted(w: seq<nat>, r: Run)
    requires Address(w) && Dots(w, r)
    ensures TextWith(w, r) == Part(w, r, 6) + [':'] + Dotted(WordBytes(w[6..]))
    ensures |Part(w, r, 6)| <= 6
  {
    hide Hex, Part, Dotted, WordBytes;
    assert w[..0] == [];
    NothingJoined();
    var d := Dotted(WordBytes(w[6..]));
    if r.len == 6 {
      PartInside(w, r, 6);
      assert "" + [':'] + [':'] + d == "" + [':', ':'] + ("" + d);
    } else {
      PartAfter(w, r, 6);
      HexFits(w[5]);
      assert w[5..6] == [w[5]] && Joined([w[5]]) == Hex(w[5]);
      assert "" + [':'] + [':'] + Hex(w[5]) + [':'] + d == "" + [':', ':'] + (Hex(w[5]) + [':'] + d);
    }
  }

  lemma {:induction false} PartFits(w: seq<nat>, r: Run, i: nat)
    requires Address(w) && i <= 8
    ensures |Part(w, r, i)| <= 5 * i
  {
    hide Hex;
    if i > 0 {
      PartFits(w, r, i - 1);
      HexFits(w[i - 1]);
    }
  }

  /** Word `k` once the first `i` bytes are in. */
  function WordSoFar(src: Bytes, k: nat, i: nat): nat
    requires |src| == 16 && k < 8
  {
    if 2 * k + 1 < i then src[2 * k] as int * 0x100 + src[2 * k + 1] as int
    else if 2 * k < i then src[2 * k] as int * 0x100
    else 0
  }

  /** `words[i / 2] |= src[i] << ((1 - (i % 2)) << 3)` over the sixteen bytes. */
  method CopyWords(src: Bytes) returns (words: seq<nat>)
    requires |src| == 16
    ensures words == WordsOf(src)
  {
    words := [0, 0, 0, 0, 0, 0, 0, 0];
    var i := 0;
    while i < 16
      invariant 0 <= i <= 16 && |words| == 8
      invariant forall k :: 0 <= k < 8 ==> words[k] == WordSoFar(src, k, i)
    {
      words := words[i / 2 := words[i / 2] + src[i] as int * (if i % 2 == 0 then 0x100 else 1)];
      i := i + 1;
    }
  }

  /** inet_ntop4, into the room that is left. */
  method Ntop4(src: Bytes, size: nat) returns (r: Option<string>)
    requires |src| == 4
    ensures r == if |Dotted(src)| >= size then None else Some(Dotted(src))
    ensures |Dotted(src)| <= 15
  {
    hide Digits;
    DecLength(src[0]);
    DecLength(src[1]);
    DecLength(src[2]);
    DecLength(src[3]);
    var tmp := new char[16];
    assert tmp[..0] == [];
    var ptr := Copy(tmp, 0, Dotted(src));
    assert [] + Dotted(src) == Dotted(src);
    var l := ptr;
    if l <= 0 || l >= size {
      return None;
    }
    return Some(tmp[..l]);
  }

  /** One round of the formatting loop; `dotted` is its break. */
  method FormatWord(tmp: array<char>, tp_: nat, words: seq<nat>, best: Run, i: nat) returns (tp: nat, dotted: bool)
    requires Address(words) && i < 8 && tmp.Length == 46 && (best.Run? ==> best.len >= 1 && best.base + best.len <= 8)
    requires tp_ == |Part(words, best, i)| <= 5 * i && tmp[..tp_] == Part(words, best, i)
    requires Dots(words, best) && i == 6 ==> tp_ <= 6
    modifies tmp
    ensures dotted <==> i == 6 && Dots(words, best)
    ensures tp < 46
    ensures tmp[..tp] == if dotted then Part(words, best, 6) + [':'] + Dotted(WordBytes(words[6..]))
                         else Part(words, best, i + 1)
  {
    hide Hex, Dotted;
    tp, dotted := tp_, false;
    PartFits(words, best, i + 1);
    if best.Run? && best.base <= i < best.base + best.len {
      if i == best.base {
        tp := Put(tmp, tp, ':');
      }
      return;
    }
    if i != 0 {
      tp := Put(tmp, tp, ':');
    }
    // The code also asks for a run of seven words here; word 6 would be inside it.
    if i == 6 && best.Run? && best.base == 0 && (best.len == 6 || (best.len == 5 && words[5] == 0xffff)) {
      var four := Ntop4(WordBytes(words[6..]), 46 - tp);
      if four.Some? {
        tp := Copy(tmp, tp, four.value);
      }
      dotted := true;
      return;
    }
    HexFits(words[i]);
    assert Part(words, best, i) + [] + Hex(words[i]) == Part(words, best, i) + Hex(words[i]);
    tp := Copy(tmp, tp, Hex(words[i]));
  }

  /** inet_ntop6: the text with the best run compressed, if it fits `size` bytes; it is
      always shorter than 46. */
  method Ntop6(src: Bytes, size: nat) returns (r: Option<string>)
    requires |src| == 16
    ensures exists text ::
              Shows(WordsOf(src), text) && |text| < 46 && r == (if |text| + 1 > size then None else Some(text))
  {
    hide Best, Part, Dotted, TextWith, WordsOf;
    var words := CopyWords(src);
    WordsAreWords(src);
    var run := LongestZeros(words);
    BestIsRun(words, run);
    if Dots(words, run) {
      PartsAreDotted(words, run);
    } else {
      PartsAreText(words, run);
    }
    var tmp := new char[46];
    var tp: nat, i: nat, dotted := 0, 0, false;
    assert tmp[..0] == [];
    PartFits(words, run, 0);
    PartNothing(words, run);
    while i < 8 && !dotted
      invariant i <= 8 && tp < 46
      invariant dotted ==> Dots(words, run) && tmp[..tp] == TextWith(words, run)
      invariant !dotted ==> tp == |Part(words, run, i)| && tmp[..tp] == Part(words, run, i)
      invariant i > 6 && !dotted ==> !Dots(words, run)
      decreases 8 - i, !dotted
    {
      PartFits(words, run, i);
      PartFits(words, run, i + 1);
      tp, dotted := FormatWord(tmp, tp, words, run, i);
      i := i + 1;
    }
    PartFits(words, run, 8);
    if run.Run? && run.base + run.len == 8 {
      tp := Put(tmp, tp, ':');
    }
    assert tmp[..tp] == TextWith(words, run);
    ghost var text := tmp[..tp];
    assert Shows(WordsOf(src), text);
    tp := Put(tmp, tp, '\0');
    if tp > size {
      r := None;
    } else {
      assert tmp[..tp - 1] == tmp[..tp][..tp - 1] == text;
      r := Some(tmp[..tp - 1]);
    }
  }

  lemma PartNothing(w: seq<nat>, r: Run)
    ensures Part(w, r, 0) == ""
  {
  }

  lemma WordsAreWords(src: Bytes)
    requires |src| == 16
    ensures Address(WordsOf(src)) && WordBytes(WordsOf(src)) == src
  {
    var w := WordsOf(src);
    WordBytesAt(w, src, 0);
    assert w[0..] == w && src[0..] == src;
  }

  lemma {:induction false} WordBytesAt(w: seq<nat>, src: Bytes, k: nat)
    requires |src| == 16 && w == WordsOf(src) && k <= 8
    ensures WordBytes(w[k..]) == src[2 * k..]
    decreases 8 - k
  {
    if k < 8 {
      WordBytesAt(w, src, k + 1);
      assert w[k..][0] == w[k] && w[k..][1..] == w[k + 1..];
      assert src[2 * k..] == [src[2 * k], src[2 * k + 1]] + src[2 * (k + 1)..];
    }
  }

  lemma BestIsRun(w: seq<nat>, r: Run)
    requires Best(w, r)
    ensures r.Run? ==> r.len >= 2 && IsRun(w, r.base, r.len)
  {
  }

  /** An address written by inet_ntop6 is read back by inet_pton6. */
  lemma AddressRoundTrip(src: Bytes, text: string)
    requires |src| == 16 && Shows(WordsOf(src), text)
    ensures Pton6(text) == Some(src)
  {
    var best: Run :| Best(WordsOf(src), best) && text == TextWith(WordsOf(src), best);
    WordsAreWords(src);
    BestIsRun(WordsOf(src), best);
    TextParses(WordsOf(src), best);
  }

  // ---- Parsing

  /** inet_pton4. */
  method ParseQuad(src: string) returns (r: Option<Bytes>)
    ensures r == Pton4(src)
  {
    var sawDigit, octets, tp := false, 0, 0;
    var tmp := new Byte[4](_ => 0);
    var s := src;
    assert tmp[..1] == [0];
    while s != ""
      invariant 0 <= tp < 4 && octets == (if sawDigit then tp + 1 else tp)
      invariant Octets(tmp[..tp + 1], octets, sawDigit, s) == Pton4(src)
      decreases |s|
    {
      var ch := s[0];
      ghost var t := tmp[..tp + 1];
      s := s[1..];
      var d := DecDigit(ch);
      if d.Some? {
        var nw := tmp[tp] as int * 10 + d.value;
        if sawDigit && tmp[tp] == 0 {
          return None;
        }
        if nw > 255 {
          return None;
        }
        tmp[tp] := nw;
        assert tmp[..tp + 1] == t[tp := tmp[tp]];
        if !sawDigit {
          octets := octets + 1;
          if octets > 4 {
            return None;
          }
          sawDigit := true;
        }
      } else if ch == '.' && sawDigit {
        if octets == 4 {
          return None;
        }
        tp := tp + 1;
        tmp[tp] := 0;
        assert tmp[..tp + 1] == t + [0];
        sawDigit := false;
      } else {
        return None;
      }
    }
    if octets < 4 {
      return None;
    }
    assert tmp[..tp + 1] == tmp[..];
    return Some(tmp[..]);
  }

  /** `*tp++ = val >> 8; *tp++ = val`. */
  method PushGroup(tmp: array<Byte>, tp_: nat, val: nat) returns (tp: nat)
    requires tmp.Length == 16 && tp_ + 2 <= 16
    modifies tmp
    ensures tp == tp_ + 2 && tmp[..tp] == old(tmp[..tp_]) + TwoBytes(val) && tmp[tp..] == old(tmp[tp..])
  {
    tmp[tp_] := val / 0x100 % 0x100;
    tmp[tp_ + 1] := val % 0x100;
    tp := tp_ + 2;
    assert tmp[..tp_] == old(tmp[..tp_]);
    assert tmp[..tp] == tmp[..tp_] + [tmp[tp_], tmp[tp_ + 1]];
  }

  ghost predicate ZeroFrom(tmp: array<Byte>, tp: nat)
    reads tmp
  {
    tp <= tmp.Length && forall k :: tp <= k < tmp.Length ==> tmp[k] == 0
  }

  /** The shift by hand: what came after the double colon moves to the end. */
  method ShiftRight(tmp: array<Byte>, colonp: nat, tp: nat)
    requires tmp.Length == 16 && colonp <= tp < 16 && ZeroFrom(tmp, tp)
    modifies tmp
    ensures tmp[..] == old(tmp[..colonp]) + seq(16 - tp, _ => 0) + old(tmp[colonp..tp])
  {
    ghost var was := tmp[..];
    var n := tp - colonp;
    var i := 1;
    while i <= n
      invariant 1 <= i <= n + 1
      invariant forall k :: 0 <= k < colonp + n - (i - 1) ==> tmp[k] == was[k]
      invariant forall k :: colonp + n - (i - 1) <= k < 16 - (i - 1) ==> tmp[k] == 0
      invariant forall k :: 16 - (i - 1) <= k < 16 ==> tmp[k] == was[k - (16 - tp)]
    {
      tmp[16 - i] := tmp[colonp + (n - i)];
      tmp[colonp + (n - i)] := 0;
      i := i + 1;
    }
    assert was[..colonp] == old(tmp[..colonp]) && was[colonp..tp] == old(tmp[colonp..tp]);
  }

  /** The end of inet_pton6. */
  method Finish(tmp: array<Byte>, tp_: nat, colonp: Option<nat>, seen: nat, val: nat) returns (r: Option<Bytes>)
    requires tmp.Length == 16 && tp_ <= 16 && ZeroFrom(tmp, tp_) && (colonp.Some? ==> colonp.value <= tp_)
    modifies tmp
    ensures r == old(Close(tmp[..tp_], colonp, seen, val))
  {
    var tp := tp_;
    ghost var was := tmp[..tp_];
    if seen > 0 {
      if tp + 2 > 16 {
        return None;
      }
      tp := PushGroup(tmp, tp, val);
    }
    ghost var all := tmp[..tp];
    if colonp.Some? {
      if tp == 16 {
        return None;
      }
      assert all[..colonp.value] == tmp[..colonp.value] && all[colonp.value..] == tmp[colonp.value..tp];
      ShiftRight(tmp, colonp.value, tp);
      tp := 16;
    }
    if tp != 16 {
      return None;
    }
    assert tmp[..16] == tmp[..];
    return Some(tmp[..]);
  }

  /** The four bytes of a dotted tail. */
  method PushQuad(tmp: array<Byte>, tp_: nat, four: Bytes) returns (tp: nat)
    requires tmp.Length == 16 && tp_ + 4 <= 16 && |four| == 4
    modifies tmp
    ensures tp == tp_ + 4 && tmp[..tp] == old(tmp[..tp_]) + four && tmp[tp..] == old(tmp[tp..])
  {
    tmp[tp_], tmp[tp_ + 1], tmp[tp_ + 2], tmp[tp_ + 3] := four[0], four[1], four[2], four[3];
    tp := tp_ + 4;
    assert tmp[..tp_] == old(tmp[..tp_]);
    assert tmp[..tp] == tmp[..tp_] + [tmp[tp_], tmp[tp_ + 1], tmp[tp_ + 2], tmp[tp_ + 3]];
  }

  lemma {:induction false} QuadLength(t: Bytes, octets: nat, saw: bool, s: string)
    requires |t| > 0 && octets == (if saw then |t| else |t| - 1) && octets <= (if saw then 4 else 3)
    ensures Octets(t, octets, saw, s).Some? ==> |Octets(t, octets, saw, s).value| == 4
    decreases |s|
  {
    if s == "" {
    } else {
      var last := t[|t| - 1];
      match DecDigit(s[0])
      case Some(d) =>
        var nw := last as int * 10 + d;
        if !(LeadingZero(saw, last) || nw > 255 || (!saw && octets + 1 > 4)) {
          QuadLength(t[|t| - 1 := nw], if saw then octets else octets + 1, true, s[1..]);
        }
      case None =>
        if s[0] == '.' && saw && octets != 4 {
          QuadLength(t + [0], octets, false, s[1..]);
        }
    }
  }

  predicate LeadingZero(saw: bool, last: Byte) {
    saw && last == 0
  }

  /** inet_pton6. */
  method Pton6Bytes(src: string) returns (r: Option<Bytes>)
    ensures r == Pton6(src)
  {
    hide Groups, Close, Octets;
    var tmp := new Byte[16](_ => 0);
    var tp: nat, colonp: Option<nat> := 0, None;
    var s := src;
    if s != "" && s[0] == ':' {
      if |s| < 2 || s[1] != ':' {
        return None;
      }
      s := s[1..];
    }
    var curtok, seen: nat, val: nat := s, 0, 0;
    assert tmp[..0] == [];
    while s != ""
      invariant tp <= 16 && ZeroFrom(tmp, tp) && (colonp.Some? ==> colonp.value <= tp) && seen <= 4
      invariant Groups(tmp[..tp], colonp, curtok, seen, val, s) == Pton6(src)
      decreases |s|
    {
      var ch := s[0];
      GroupsStep(tmp[..tp], colonp, curtok, seen, val, s);
      s := s[1..];
      var d := HexDigit(ch);
      if d.Some? {
        val := val * 16 + d.value;
        seen := seen + 1;
        if seen > 4 {
          return None;
        }
      } else if ch == ':' {
        curtok := s;
        if seen == 0 {
          if colonp.Some? {
            return None;
          }
          colonp := Some(tp);
        } else {
          if s == "" {
            return None;
          }
          if tp + 2 > 16 {
            return None;
          }
          tp := PushGroup(tmp, tp, val);
          seen, val := 0, 0;
        }
      } else {
        if ch == '.' && tp + 4 <= 16 {
          QuadLength([0], 0, false, curtok);
          var four := ParseQuad(curtok);
          if four.Some? {
            tp := PushQuad(tmp, tp, four.value);
            r := Finish(tmp, tp, colonp, 0, val);
            return;
          }
        }
        return None;
      }
    }
    GroupsEnd(tmp[..tp], colonp, curtok, seen, val);
    r := Finish(tmp, tp, colonp, seen, val);
  }

  lemma GroupsEnd(tp: Bytes, colon: Option<nat>, token: string, seen: nat, val: nat)
    requires |tp| <= 16 && (colon.Some? ==> colon.value <= |tp|)
    ensures Groups(tp, colon, token, seen, val, "") == Close(tp, colon, seen, val)
  {
  }

  lemma GroupsStep(tp: Bytes, colon: Option<nat>, token: string, seen: nat, val: nat, s: string)
    requires |tp| <= 16 && (colon.Some? ==> colon.value <= |tp|) && s != ""
    ensures var g := Groups(tp, colon, token, seen, val, s);
            match HexDigit(s[0])
            case Some(d) => g == if seen + 1 > 4 then None else Groups(tp, colon, token, seen + 1, val * 16 + d, s[1..])
            case None =>
              if s[0] == ':' then
                g == if seen == 0 then if colon.Some? then None else Groups(tp, Some(|tp|), s[1..], 0, val, s[1..])
                     else if s[1..] == "" || |tp| + 2 > 16 then None
                     else Groups(tp + TwoBytes(val), colon, s[1..], 0, 0, s[1..])
              else if s[0] == '.' && |tp| + 4 <= 16 && Pton4(token).Some? then
                g == Close(tp + Pton4(token).value, colon, 0, val)
              else g == None
  {
  }

  /** uv_inet_pton for IPv6. */
  method UvPton6Bytes(src: string) returns (r: Option<Bytes>)
    ensures r == UvPton6(src)
  {
    var p := 0;
    while p < |src| && src[p] != '%'
      invariant 0 <= p <= |src| && Percent(src) == p + Percent(src[p..])
    {
      assert src[p..][1..] == src[p + 1..];
      p := p + 1;
    }
    if p < |src| && p > 45 {
      return None;
    }
    r := Pton6Bytes(src[..p]);
  }

  // ---- Scopes

  ghost predicate Clean(s: string) {
    forall i :: 0 <= i < |s| ==> s[i] != '%'
  }

  lemma {:induction false} NoPercent(s: string, zone: string)
    requires Clean(s) && (zone == "" || zone[0] == '%')
    ensures Percent(s + zone) == |s|
  {
    if s == "" {
      assert "" + zone == zone;
    } else {
      assert (s + zone)[1..] == s[1..] + zone;
      NoPercent(s[1..], zone);
    }
  }

  lemma {:induction false} DigitsClean(w: nat)
    ensures Clean(Hex(w)) && Clean(Digits(w))
  {
    if w >= 10 {
      DigitsClean(w / 10);
    }
    if w >= 16 {
      DigitsClean(w / 16);
    }
  }

  lemma {:induction false} JoinedClean(w: seq<nat>)
    ensures Clean(Joined(w))
  {
    hide Hex;
    if w != [] {
      DigitsClean(w[0]);
      JoinedClean(w[1..]);
    }
  }

  lemma DottedClean(b: Bytes)
    requires |b| == 4
    ensures Clean(Dotted(b)) && |Dotted(b)| <= 15
  {
    hide Digits;
    DigitsClean(b[0]);
    DigitsClean(b[1]);
    DigitsClean(b[2]);
    DigitsClean(b[3]);
    DecLength(b[0]);
    DecLength(b[1]);
    DecLength(b[2]);
    DecLength(b[3]);
  }

  lemma TextClean(w: seq<nat>, r: Run)
    requires Address(w) && (r.Run? ==> r.len >= 1 && r.base + r.len <= 8)
    ensures Clean(TextWith(w, r)) && |TextWith(w, r)| <= 45
  {
    hide Hex, Joined, Dotted, Part;
    DigitsClean(w[5]);
    JoinedClean(w);
    if r.Run? {
      JoinedClean(w[..r.base]);
      JoinedClean(w[r.base + r.len..]);
    }
    DottedClean(WordBytes(w[6..]));
    if Dots(w, r) {
      PartsAreDotted(w, r);
    } else {
      PartsAreText(w, r);
      PartFits(w, r, 8);
    }
  }

  /** The same through uv_inet_pton, with or without a scope after the address. */
  lemma ScopedRoundTrip(src: Bytes, text: string, zone: string)
    requires |src| == 16 && Shows(WordsOf(src), text)
    requires zone == "" || zone[0] == '%'
    ensures UvPton6(text + zone) == Some(src)
  {
    hide Pton6, TextWith, Best;
    AddressRoundTrip(src, text);
    var best: Run :| Best(WordsOf(src), best) && text == TextWith(WordsOf(src), best);
    WordsAreWords(src);
    BestIsRun(WordsOf(src), best);
    TextClean(WordsOf(src), best);
    NoPercent(text, zone);
    assert (text + zone)[..|text|] == text;
  }
}
