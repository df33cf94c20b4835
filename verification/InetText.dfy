/** IPv4 and IPv6 addresses as text: what the parsers accept, and the text of an address. */
module InetText {
  import opened Basics
  import opened Words

  type Bytes = seq<Byte>

  // ---- Parsing

  function DecDigit(c: char): Option<nat> {
    if '0' <= c <= '9' then Some(c as nat - '0' as nat) else None
  }

  function HexDigit(c: char): Option<nat> {
    if '0' <= c <= '9' then Some(c as nat - '0' as nat)
    else if 'a' <= c <= 'f' then Some(c as nat - 'a' as nat + 10)
    else if 'A' <= c <= 'F' then Some(c as nat - 'A' as nat + 10)
    else None
  }

  /** inet_pton4: the octets so far, the last one still growing. */
  function Octets(t: Bytes, octets: nat, sawDigit: bool, s: string): Option<Bytes>
    requires |t| > 0
    decreases |s|
  {
    if s == "" then if octets < 4 then None else Some(t)
    else
      var last := t[|t| - 1];
      match DecDigit(s[0])
      case Some(d) =>
        var nw := last as int * 10 + d;
        if (sawDigit && last == 0) || nw > 255 then None
        else if !sawDigit && octets + 1 > 4 then None
        else Octets(t[|t| - 1 := nw], if sawDigit then octets else octets + 1, true, s[1..])
      case None =>
        if s[0] == '.' && sawDigit && octets != 4 then Octets(t + [0], octets, false, s[1..]) else None
  }

  function Pton4(s: string): Option<Bytes> {
    Octets([0], 0, false, s)
  }

  function TwoBytes(val: nat): Bytes {
    [val / 0x100 % 0x100, val % 0x100]
  }

  /** The end of inet_pton6: the last group, then the gap for `::`. */
  function Close(tp: Bytes, colon: Option<nat>, seen: nat, val: nat): Option<Bytes>
    requires colon.Some? ==> colon.value <= |tp|
  {
    if seen > 0 && |tp| + 2 > 16 then None
    else
      var all := if seen > 0 then tp + TwoBytes(val) else tp;
      if colon == None then if |all| == 16 then Some(all) else None
      else if |all| >= 16 then None
      else Some(all[..colon.value] + seq(16 - |all|, _ => 0) + all[colon.value..])
  }

  /** The loop of inet_pton6: bytes so far, where `::` was, the current token, its digits. */
  function Groups(tp: Bytes, colon: Option<nat>, token: string, seen: nat, val: nat, s: string): Option<Bytes>
    requires |tp| <= 16 && (colon.Some? ==> colon.value <= |tp|)
    decreases |s|
  {
    if s == "" then Close(tp, colon, seen, val)
    else match HexDigit(s[0])
      case Some(d) =>
        if seen + 1 > 4 then None else Groups(tp, colon, token, seen + 1, val * 16 + d, s[1..])
      case None =>
        if s[0] == ':' then
          if seen == 0 then
            if colon.Some? then None else Groups(tp, Some(|tp|), s[1..], 0, val, s[1..])
          else if s[1..] == "" || |tp| + 2 > 16 then None
          else Groups(tp + TwoBytes(val), colon, s[1..], 0, 0, s[1..])
        else if s[0] == '.' && |tp| + 4 <= 16 then
          match Pton4(token)
          case Some(four) => Close(tp + four, colon, 0, val)
          case None => None
        else None
  }

  function Pton6(s: string): Option<Bytes> {
    if s != "" && s[0] == ':' then
      if |s| < 2 || s[1] != ':' then None else Groups([], None, s[1..], 0, 0, s[1..])
    else Groups([], None, s, 0, 0, s)
  }

  /** uv_inet_pton for IPv6: anything from a percent sign on is a scope and is dropped. */
  function UvPton6(s: string): Option<Bytes> {
    var p := Percent(s);
    if p < |s| && p > 45 then None else Pton6(s[..p])
  }

  function Percent(s: string): (p: nat)
    ensures p <= |s|
  {
    if s == "" || s[0] == '%' then 0 else 1 + Percent(s[1..])
  }

  // ---- The text of an address

  function Hex(w: nat): (s: string)
    ensures |s| > 0
  {
    if w < 16 then [HexChar(w)] else Hex(w / 16) + [HexChar(w % 16)]
  }

  function HexChar(d: nat): char
    requires d < 16
  {
    if d < 10 then '0' + d as char else 'a' + (d - 10) as char
  }

  function Dotted(b: Bytes): string
    requires |b| == 4
  {
    Digits(b[0]) + ['.'] + Digits(b[1]) + ['.'] + Digits(b[2]) + ['.'] + Digits(b[3])
  }

  /** Eight 16-bit words. */
  predicate Address(w: seq<nat>) {
    |w| == 8 && forall i :: 0 <= i < 8 ==> w[i] < 0x1_0000
  }

  function WordBytes(w: seq<nat>): (b: Bytes)
    ensures |b| == 2 * |w|
  {
    if w == [] then [] else TwoBytes(w[0]) + WordBytes(w[1..])
  }

  function WordsOf(b: Bytes): (w: seq<nat>)
    requires |b| == 16
    ensures Address(w)
  {
    seq(8, i requires 0 <= i < 8 => b[2 * i] as int * 0x100 + b[2 * i + 1] as int)
  }

  /** Groups with colons between them. */
  function Joined(w: seq<nat>): string {
    if w == [] then "" else if |w| == 1 then Hex(w[0]) else Hex(w[0]) + [':'] + Joined(w[1..])
  }

  /** A stretch of zero words. */
  datatype Run = NoRun | Run(base: nat, len: nat)

  predicate IsRun(w: seq<nat>, i: nat, n: nat) {
    i + n <= |w| && forall k :: i <= k < i + n ==> w[k] == 0
  }

  /** The run to compress: a longest one, the first of them, and at least two words. */
  ghost predicate Best(w: seq<nat>, r: Run): (best: bool)
    ensures best && r.Run? ==> r.base + r.len <= |w|
  {
    match r
    case NoRun => forall i: nat, n: nat :: IsRun(w, i, n) ==> n < 2
    case Run(b, l) =>
      l >= 2 && IsRun(w, b, l) && forall i: nat, n: nat :: IsRun(w, i, n) ==> n < l || (n == l && b <= i)
  }

  /** Is the tail written as an IPv4 address? */
  predicate Dots(w: seq<nat>, r: Run)
    requires |w| == 8
  {
    r.Run? && r.base == 0 && (r.len == 6 || (r.len == 5 && w[5] == 0xffff))
  }

  /** The text for a given choice of run. */
  function TextWith(w: seq<nat>, r: Run): string
    requires Address(w) && (r.Run? ==> r.base + r.len <= 8)
  {
    match r
    case NoRun => Joined(w)
    case Run(b, l) =>
      Joined(w[..b]) + [':', ':']
      + if Dots(w, r) then (if l == 6 then "" else Hex(w[5]) + [':']) + Dotted(WordBytes(w[6..]))
        else Joined(w[b + l..])
  }

  /** A text of the address: its best run compressed. */
  ghost predicate Shows(w: seq<nat>, text: string)
    requires Address(w)
  {
    exists r: Run :: Best(w, r) && text == TextWith(w, r)
  }

  /** There is only one best run, and so only one text. */
  lemma OneText(w: seq<nat>, s: string, t: string)
    requires Address(w) && Shows(w, s) && Shows(w, t)
    ensures s == t
  {
    hide TextWith;
    var a: Run :| Best(w, a) && s == TextWith(w, a);
    var b: Run :| Best(w, b) && t == TextWith(w, b);
    assert a == b;
  }
}
