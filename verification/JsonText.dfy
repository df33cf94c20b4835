/** The text form of a pc_JSON tree: what the printers write, what the parsers read and
    what the minifier keeps.

    A text is the characters before the terminator; reading at its end gives NUL.
    `Wild` stands for a read past the terminator, for a `\u` escape whose four digits
    are not hexadecimal, which the code does not check for, and for a number whose
    exponent or value overflows an int. */
module JsonText {
  import opened Basics
  import opened JsonTree

  // ---- Printing

  /** How the C library writes a double that is not an int. */
  type DoubleText = real -> string

  function Abs(r: real): real {
    if r < 0.0 then -r else r
  }

  const EPSILON: real := 1.0 / 4503599627370496.0

  predicate PrintsAsInt(i: int, d: real) {
    Abs(i as real - d) <= EPSILON && -2147483648.0 <= d <= 2147483647.0
  }

  /** print_number. */
  function NumberText(i: int, d: real, dt: DoubleText): string {
    if PrintsAsInt(i, d) then Decimal(i) else dt(d)
  }

  /** One hexadecimal digit of `%04x`. */
  function HexDigit(d: nat): char
    requires d < 16
  {
    if d < 10 then '0' + d as char else 'a' + (d - 10) as char
  }

  /** The letter of a two-character escape. */
  function ShortEscape(c: char): Option<char> {
    match c
    case '\\' => Some('\\')
    case '\"' => Some('\"')
    case '\U{8}' => Some('b')
    case '\U{C}' => Some('f')
    case '\n' => Some('n')
    case '\r' => Some('r')
    case '\t' => Some('t')
    case _ => None
  }

  function EscapeChar(c: char): string {
    if c as int > 31 && c != '\"' && c != '\\' then [c]
    else match ShortEscape(c)
      case Some(e) => ['\\', e]
      case None => ['\\', 'u', '0', '0', HexDigit(c as int / 16 % 16), HexDigit(c as int % 16)]
  }

  function Escaped(s: string): string {
    if s == "" then "" else EscapeChar(s[0]) + Escaped(s[1..])
  }

  /** print_string_ptr. */
  function StringText(s: string): string {
    ['\"'] + Escaped(s) + ['\"']
  }

  function Tabs(n: int): string {
    if n <= 0 then "" else ['\t'] + Tabs(n - 1)
  }

  /** print_value. */
  function ValueText(j: Json, depth: nat, fmt: bool, dt: DoubleText): string
    decreases j, 0
  {
    match j
    case Null => "null"
    case False => "false"
    case True => "true"
    case Number(i, d) => NumberText(i, d, dt)
    case String(t) => StringText(t)
    case Array(items) =>
      if items == [] then "[]" else ['['] + ItemsText(items, depth + 1, fmt, dt) + [']']
    case Object(ms) =>
      if ms == [] then ['{'] + (if fmt then ['\n'] + Tabs(depth - 1) else []) + ['}']
      else
        ['{'] + (if fmt then ['\n'] else []) + MembersText(ms, depth + 1, fmt, dt)
        + (if fmt then Tabs(depth) else []) + ['}']
  }

  function ItemsText(items: seq<Json>, depth: nat, fmt: bool, dt: DoubleText): string
    decreases items
  {
    if items == [] then ""
    else if |items| == 1 then ValueText(items[0], depth, fmt, dt)
    else
      ValueText(items[0], depth, fmt, dt) + (if fmt then [',', ' '] else [',']) + ItemsText(items[1..], depth, fmt, dt)
  }

  /** One member, up to its value. */
  function NameText(m: Member, depth: nat, fmt: bool): string {
    (if fmt then Tabs(depth) else []) + StringText(m.name) + [':'] + (if fmt then ['\t'] else [])
  }

  function MembersText(ms: seq<Member>, depth: nat, fmt: bool, dt: DoubleText): string
    decreases ms
  {
    if ms == [] then ""
    else
      assert ms[0].value < ms[0];
      NameText(ms[0], depth, fmt) + ValueText(ms[0].value, depth, fmt, dt)
      + (if |ms| > 1 then [','] else []) + (if fmt then ['\n'] else []) + MembersText(ms[1..], depth, fmt, dt)
  }

  // ---- Concatenation, regrouped

  lemma Seam2(a: string, b: string, c: string)
    ensures a + b + c == a + (b + c)
  {
  }

  lemma Seam3(a: string, b: string, c: string, d: string)
    ensures a + b + c + d == a + (b + c + d) && a + b + c == a + (b + c)
  {
  }

  lemma Split(a: string, b: string)
    requires a != ""
    ensures a == [a[0]] + a[1..] && a + b == [a[0]] + (a[1..] + b) && (a + b)[0] == a[0] && (a + b)[1..] == a[1..] + b
  {
  }

  /** The text of a nonempty string, from its first character on. */
  lemma EscapedUnfold(s: string, rest: string)
    ensures s == "" ==> Escaped(s) == "" && Escaped(s) + ['\"'] == ['\"'] && Escaped(s) + ['\"'] + rest == ['\"'] + rest
    ensures s != "" ==> Escaped(s) + ['\"'] == EscapeChar(s[0]) + (Escaped(s[1..]) + ['\"'])
    ensures s != "" ==> Escaped(s) + ['\"'] + rest == EscapeChar(s[0]) + (Escaped(s[1..]) + ['\"'] + rest)
  {
    if s != "" {
      Seam3(EscapeChar(s[0]), Escaped(s[1..]), ['\"'], rest);
    }
  }

  lemma StringUnfold(s: string, rest: string)
    ensures (StringText(s) + rest)[0] == '\"' && (StringText(s) + rest)[1..] == Escaped(s) + ['\"'] + rest
    ensures StringText(s) == ['\"'] + (Escaped(s) + ['\"'])
  {
    hide Escaped;
    Seam3(['\"'], Escaped(s), ['\"'], rest);
    Split(['\"'], Escaped(s) + ['\"'] + rest);
  }

  // ---- Parsing

  datatype Parsed<+T> = Done(value: T, rest: string) | Fail | Wild

  /** The character at the front, NUL at the end of the text. */
  function Front(s: string): char {
    if s == "" then '\0' else s[0]
  }

  function Skip(s: string): (r: string)
    ensures |r| <= |s|
  {
    if s != "" && s[0] as int <= 32 then Skip(s[1..]) else s
  }

  predicate StartsWith(s: string, p: string) {
    |s| >= |p| && s[..|p|] == p
  }

  predicate IsDigit(c: char) {
    '0' <= c <= '9'
  }

  function DigitValue(c: char): nat
    requires IsDigit(c)
  {
    c as nat - '0' as nat
  }

  function ReadDigits(n: real, s: string): (r: (real, string))
    ensures |r.1| <= |s|
    decreases |s|
  {
    if IsDigit(Front(s)) then ReadDigits(n * 10.0 + DigitValue(s[0]) as real, s[1..]) else (n, s)
  }

  function ReadExponent(n: int, s: string): (r: (int, string))
    ensures |r.1| <= |s|
    decreases |s|
  {
    if IsDigit(Front(s)) then ReadExponent(n * 10 + DigitValue(s[0]), s[1..]) else (n, s)
  }

  function Pow10(e: int): (p: real)
    ensures p > 0.0
    decreases if e < 0 then -e else e
  {
    if e == 0 then 1.0 else if e > 0 then 10.0 * Pow10(e - 1) else Pow10(e + 1) / 10.0
  }

  /** The digits before the point, a leading zero skipped. */
  function Integral(s: string): (r: (real, string))
    ensures |r.1| <= |s| && (IsDigit(Front(s)) ==> |r.1| < |s|)
  {
    var t := if Front(s) == '0' then s[1..] else s;
    if '1' <= Front(t) <= '9' then ReadDigits(0.0, t) else (0.0, t)
  }

  /** The digits after the point, and minus their number. */
  function Fraction(n: real, s: string): (r: (real, int, string))
    ensures |r.2| <= |s|
  {
    if Front(s) == '.' && IsDigit(Front(s[1..])) then
      var (m, t) := ReadDigits(n, s[1..]);
      (m, |t| - |s[1..]|, t)
    else (n, 0, s)
  }

  function Exponent(s: string): (r: (int, string))
    ensures |r.1| <= |s|
  {
    if Front(s) != 'e' && Front(s) != 'E' then (0, s)
    else if Front(s[1..]) == '+' then ReadExponent(0, s[2..])
    else if Front(s[1..]) == '-' then
      var (e, t) := ReadExponent(0, s[2..]);
      (-e, t)
    else ReadExponent(0, s[1..])
  }

  /** `sign*n*pow(10.0, e)` */
  function Scaled(sign: real, n: real, e: int): real {
    sign * n * Pow10(e)
  }

  /** Neither the exponent counter nor the conversion to int overflows. */
  predicate NumberDefined(e: int, d: real) {
    -0x8000_0000 < e < 0x8000_0000 && FitsInt(d)
  }

  /** parse_number, called on a sign or a digit. */
  function ParseNumber(s: string): (r: Parsed<Json>)
    requires s != "" && (s[0] == '-' || IsDigit(s[0]))
    ensures r.Done? ==> |r.rest| < |s|
  {
    var sign := if s[0] == '-' then -1.0 else 1.0;
    var (n, s1) := Integral(if s[0] == '-' then s[1..] else s);
    var (m, scale, s2) := Fraction(n, s1);
    var (e, s3) := Exponent(s2);
    var d := Scaled(sign, m, scale + e);
    if NumberDefined(e, d) then Done(Number(Truncate(d), d), s3) else Wild
  }

  function HexValue(c: char): Option<nat> {
    if '0' <= c <= '9' then Some(c as nat - '0' as nat)
    else if 'A' <= c <= 'F' then Some(10 + (c as nat - 'A' as nat))
    else if 'a' <= c <= 'f' then Some(10 + (c as nat - 'a' as nat))
    else None
  }

  /** parse_hex4 on four hexadecimal digits. */
  function Hex4(s: string): (r: Option<nat>)
    ensures r.Some? ==> |s| >= 4 && r.value < 0x10000
  {
    if |s| < 4 then None
    else match (HexValue(s[0]), HexValue(s[1]), HexValue(s[2]), HexValue(s[3]))
      case (Some(a), Some(b), Some(c), Some(d)) => Some(((a * 16 + b) * 16 + c) * 16 + d)
      case _ => None
  }

  /** The bytes of one code point. */
  function Utf8(uc: nat): (s: string)
    requires uc < 0x11_0000
    ensures 1 <= |s| <= 4
  {
    if uc < 0x80 then [uc as char]
    else if uc < 0x800 then [(0xC0 + uc / 0x40) as char, (0x80 + uc % 0x40) as char]
    else if uc < 0x1_0000 then
      [(0xE0 + uc / 0x1000) as char, (0x80 + uc / 0x40 % 0x40) as char, (0x80 + uc % 0x40) as char]
    else
      [(0xF0 + uc / 0x4_0000) as char, (0x80 + uc / 0x1000 % 0x40) as char,
       (0x80 + uc / 0x40 % 0x40) as char, (0x80 + uc % 0x40) as char]
  }

  /** What follows `\u`: the characters it stands for, none when it is not valid. */
  function ParseUnicode(s: string): (r: Parsed<string>)
    ensures r.Done? ==> |r.rest| < |s|
  {
    match Hex4(s)
    case None => Wild
    case Some(uc) =>
      var t := s[4..];
      if 0xDC00 <= uc <= 0xDFFF || uc == 0 then Done("", t)
      else if 0xD800 <= uc <= 0xDBFF then
        if !StartsWith(t, ['\\', 'u']) then Done("", t)
        else match Hex4(t[2..])
          case None => Wild
          case Some(uc2) =>
            if uc2 < 0xDC00 || uc2 > 0xDFFF then Done("", t[6..])
            else Done(Utf8(0x10000 + uc % 0x400 * 0x400 + uc2 % 0x400), t[6..])
      else Done(Utf8(uc), t)
  }

  /** What follows a backslash. */
  function ParseEscape(s: string): (r: Parsed<string>)
    ensures r.Done? ==> |r.rest| < |s|
  {
    if s == "" then Wild
    else match s[0]
      case 'b' => Done(['\U{8}'], s[1..])
      case 'f' => Done(['\U{C}'], s[1..])
      case 'n' => Done(['\n'], s[1..])
      case 'r' => Done(['\r'], s[1..])
      case 't' => Done(['\t'], s[1..])
      case 'u' => ParseUnicode(s[1..])
      case _ => Done([s[0]], s[1..])
  }

  /** The inside of a string, up to its closing quote or to the end of the text. */
  function ParseChars(s: string): (r: Parsed<string>)
    ensures r.Done? ==> |r.rest| <= |s|
    decreases |s|
  {
    if s == "" then Done("", "")
    else if s[0] == '\"' then Done("", s[1..])
    else
      var first := if s[0] == '\\' then ParseEscape(s[1..]) else Done([s[0]], s[1..]);
      match first
      case Done(c, t) => (match ParseChars(t)
                          case Done(cs, rest) => Done(c + cs, rest)
                          case other => other)
      case other => other
  }

  /** parse_string. */
  function ParseString(s: string): (r: Parsed<string>)
    ensures r.Done? ==> |r.rest| < |s|
  {
    if Front(s) != '\"' then Fail else ParseChars(s[1..])
  }

  /** parse_value. */
  function ParseValue(s: string): (r: Parsed<Json>)
    ensures r.Done? ==> |r.rest| < |s|
    decreases |s|, 0
  {
    if StartsWith(s, "null") then Done(Null, s[4..])
    else if StartsWith(s, "false") then Done(False, s[5..])
    else if StartsWith(s, "true") then Done(True, s[4..])
    else if Front(s) == '\"' then
      match ParseString(s)
      case Done(t, rest) => Done(String(t), rest)
      case Fail => Fail
      case Wild => Wild
    else if Front(s) == '-' || IsDigit(Front(s)) then ParseNumber(s)
    else if Front(s) == '[' then
      var t := Skip(s[1..]);
      if Front(t) == ']' then Done(Array([]), t[1..])
      else match ParseItems(t)
        case Done(items, rest) => Done(Array(items), rest)
        case Fail => Fail
        case Wild => Wild
    else if Front(s) == '{' then
      var t := Skip(s[1..]);
      if Front(t) == '}' then Done(Object([]), t[1..])
      else match ParseMembers(t)
        case Done(ms, rest) => Done(Object(ms), rest)
        case Fail => Fail
        case Wild => Wild
    else Fail
  }

  /** The values of an array, from the first one to the closing bracket. */
  function ParseItems(s: string): (r: Parsed<seq<Json>>)
    ensures r.Done? ==> |r.rest| < |s|
    decreases |s|, 1
  {
    match ParseValue(s)
    case Done(v, t) =>
      var u := Skip(t);
      if Front(u) == ',' then
        match ParseItems(Skip(u[1..]))
        case Done(vs, rest) => Done([v] + vs, rest)
        case other => other
      else if Front(u) == ']' then Done([v], u[1..])
      else Fail
    case Fail => Fail
    case Wild => Wild
  }

  /** The members of an object, from the first name to the closing brace. */
  function ParseMembers(s: string): (r: Parsed<seq<Member>>)
    ensures r.Done? ==> |r.rest| < |s|
    decreases |s|, 1
  {
    match ParseString(s)
    case Done(name, t) => (
      var t1 := Skip(t);
      if Front(t1) != ':' then Fail
      else match ParseValue(Skip(t1[1..]))
        case Done(v, t2) => (
          var u := Skip(t2);
          if Front(u) == ',' then
            match ParseMembers(Skip(u[1..]))
            case Done(ms, rest) => Done([Member(name, v)] + ms, rest)
            case other => other
          else if Front(u) == '}' then Done([Member(name, v)], u[1..])
          else Fail)
        case Fail => Fail
        case Wild => Wild)
    case Fail => Fail
    case Wild => Wild
  }

  /** pc_JSON_ParseWithOpts: the tree and where its text ends. */
  function ParseWithOpts(s: string, requireNullTerminated: bool): Parsed<Json> {
    match ParseValue(Skip(s))
    case Done(j, rest) =>
      if !requireNullTerminated then Done(j, rest)
      else if Skip(rest) == "" then Done(j, "") else Fail
    case other => other
  }

  // ---- Minifying

  /** Drops a comment up to the end of its line. */
  function DropLine(s: string): (r: string)
    ensures |r| <= |s|
  {
    if s == "" || s[0] == '\n' then s else DropLine(s[1..])
  }

  /** Drops a comment up to and including its closing mark, None when there is none. */
  function DropBlock(s: string): (r: Option<string>)
    ensures r.Some? ==> |r.value| < |s|
  {
    if s == "" then None
    else if s[0] == '*' && Front(s[1..]) == '/' then Some(s[2..])
    else DropBlock(s[1..])
  }

  /** The rest of a string literal with its closing quote, None when there is none. */
  function Literal(s: string): (r: Option<(string, string)>)
    ensures r.Some? ==> |r.value.1| < |s| && r.value.0 + r.value.1 == s
    decreases |s|
  {
    if s == "" then None
    else if s[0] == '\"' then Some((s[..1], s[1..]))
    else
      var k := if s[0] == '\\' then 2 else 1;
      if |s| < k then None
      else match Literal(s[k..])
        case None => None
        case Some(p) => Some((s[..k] + p.0, p.1))
  }

  /** pc_JSON_Minify; None when it would run past the end of the text. */
  function Minified(s: string): Option<string>
    decreases |s|
  {
    if s == "" then Some("")
    else if s[0] == ' ' || s[0] == '\t' || s[0] == '\r' || s[0] == '\n' then Minified(s[1..])
    else if s[0] == '/' && Front(s[1..]) == '/' then Minified(DropLine(s[1..]))
    else if s[0] == '/' && Front(s[1..]) == '*' then
      match DropBlock(s[1..])
      case None => None
      case Some(t) => Minified(t)
    else if s[0] == '\"' then
      match Literal(s[1..])
      case None => None
      case Some(p) => (match Minified(p.1)
                       case None => None
                       case Some(m) => Some(['\"'] + p.0 + m))
    else
      match Minified(s[1..])
      case None => None
      case Some(m) => Some([s[0]] + m)
  }
}
