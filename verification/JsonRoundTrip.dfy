/** Printing then parsing gives the same tree; minifying the formatted text gives the
    unformatted one. */
module JsonRoundTrip {
  import opened Basics
  import opened JsonText
  import opened JsonTree

  // ---- Numbers

  /** A text after which no number can go on. */
  predicate NumberEnds(s: string) {
    var c := Front(s);
    !IsDigit(c) && c != '.' && c != 'e' && c != 'E'
  }

  lemma {:induction false} DigitsRead(n: nat, t: string)
    ensures ReadDigits(0.0, Digits(n) + t) == ReadDigits(n as real, t)
  {
    if n < 10 {
      assert (Digits(n) + t)[1..] == t;
    } else {
      DigitsRead(n / 10, [Digit(n % 10)] + t);
      assert Digits(n) + t == Digits(n / 10) + ([Digit(n % 10)] + t);
      assert ([Digit(n % 10)] + t)[1..] == t;
      assert (n / 10) as real * 10.0 + (n % 10) as real == n as real;
    }
  }

  lemma {:induction false} FirstDigit(n: nat)
    ensures IsDigit(Digits(n)[0]) && (n > 0 ==> Digits(n)[0] != '0')
    ensures n == 0 ==> Digits(n) == ['0']
  {
    if n >= 10 {
      FirstDigit(n / 10);
      assert Digits(n)[0] == Digits(n / 10)[0];
    }
  }

  lemma DecimalParses(i: int, rest: string)
    requires NumberEnds(rest) && -0x8000_0000 <= i < 0x8000_0000
    ensures var s := Decimal(i) + rest;
            && (s[0] == '-' || IsDigit(s[0]))
            && ParseNumber(s) == Done(Number(i, i as real), rest)
  {
    var s := Decimal(i) + rest;
    var n := if i < 0 then -i else i;
    FirstDigit(n);
    DigitsRead(n, rest);
    var s1 := Digits(n) + rest;
    assert i < 0 ==> s == ['-'] + s1 && s[1..] == s1;
    assert n == 0 ==> s1[1..] == rest;
    assert s1[0] == Digits(n)[0];
    assert (if i < 0 then -1.0 else 1.0) * (n as real) * 1.0 == i as real;
    assert ReadDigits(n as real, rest) == (n as real, rest);
    assert Pow10(0) == 1.0;
    CreateNumberOfInt(i);
  }

  // ---- Strings

  lemma EscapeParses(c: char, t: string)
    requires 0 < c as int < 256
    ensures var e := EscapeChar(c) + t;
            && |e| > 0 && e[0] != '\"'
            && (if e[0] == '\\' then ParseEscape(e[1..]) == Done([c], t) else e == [c] + t)
  {
    if c as int <= 31 && ShortEscape(c) == None {
      HexParses(c as int, t);
      assert (EscapeChar(c) + t)[1..][1..] == ['0', '0', HexDigit(c as int / 16 % 16), HexDigit(c as int % 16)] + t;
    } else if EscapeChar(c)[0] == '\\' {
      assert (EscapeChar(c) + t)[1..] == [EscapeChar(c)[1]] + t;
      assert ([EscapeChar(c)[1]] + t)[1..] == t;
    }
  }

  lemma HexParses(n: nat, t: string)
    requires 0 < n < 32
    ensures ParseUnicode(['0', '0', HexDigit(n / 16 % 16), HexDigit(n % 16)] + t) == Done([n as char], t)
  {
    var s := ['0', '0', HexDigit(n / 16 % 16), HexDigit(n % 16)] + t;
    assert s[0] == s[1] == '0' && s[2] == HexDigit(n / 16 % 16) && s[3] == HexDigit(n % 16);
    assert HexValue(s[2]) == Some(n / 16) && HexValue(s[3]) == Some(n % 16);
    assert s[4..] == t;
  }

  lemma CharsQuote(rest: string)
    ensures ParseChars(['\"'] + rest) == Done("", rest)
  {
    assert (['\"'] + rest)[1..] == rest;
  }

  lemma CharsOne(c: char, t: string, cs: string, rest: string)
    requires 0 < c as int < 256 && ParseChars(t) == Done(cs, rest)
    ensures ParseChars(EscapeChar(c) + t) == Done([c] + cs, rest)
  {
    hide EscapeChar, ParseEscape;
    EscapeParses(c, t);
    var e := EscapeChar(c) + t;
    if e[0] != '\\' {
      assert e[0] == c && e[1..] == t;
    }
  }

  lemma {:induction false} CharsParse(s: string, rest: string)
    requires CText(s)
    ensures ParseChars(Escaped(s) + ['\"'] + rest) == Done(s, rest)
  {
    hide ParseChars, Escaped, EscapeChar;
    EscapedUnfold(s, rest);
    if s == "" {
      CharsQuote(rest);
    } else {
      CharsParse(s[1..], rest);
      CharsOne(s[0], Escaped(s[1..]) + ['\"'] + rest, s[1..], rest);
      Split(s, "");
    }
  }

  lemma StringParses(s: string, rest: string)
    requires CText(s)
    ensures ParseString(StringText(s) + rest) == Done(s, rest)
    ensures (StringText(s) + rest)[0] == '\"'
  {
    hide ParseChars, Escaped, StringText;
    CharsParse(s, rest);
    StringUnfold(s, rest);
  }

  // ---- Whole trees

  /** A tree the text form can hold: numbers are C ints, strings are C strings. */
  ghost predicate TextTree(j: Json)
    decreases j
  {
    match j
    case Number(i, d) => -0x8000_0000 <= i < 0x8000_0000 && d == i as real
    case String(t) => CText(t)
    case Array(items) => forall x <- items :: TextTree(x)
    case Object(ms) => forall m <- ms :: TextMember(m)
    case _ => true
  }

  ghost predicate TextMember(m: Member)
    decreases m
  {
    CText(m.name) && TextTree(m.value)
  }

  lemma SkipSolid(s: string)
    requires s == "" || s[0] as int > 32
    ensures Skip(s) == s
  {
  }

  lemma {:induction false} SkipTabs(n: int, s: string)
    ensures Skip(Tabs(n) + s) == Skip(s)
  {
    if n <= 0 {
      assert Tabs(n) + s == s;
    } else {
      assert (Tabs(n) + s)[1..] == Tabs(n - 1) + s;
      SkipTabs(n - 1, s);
    }
  }

  /** The first character of a printed value. */
  lemma ValueStarts(j: Json, depth: nat, fmt: bool, dt: DoubleText)
    requires TextTree(j)
    ensures var s := ValueText(j, depth, fmt, dt);
            s != "" && s[0] as int > 32 && s[0] != ']' && s[0] != '}'
  {
    match j
    case Number(i, d) =>
      FirstDigit(if i < 0 then -i else i);
      var s := ValueText(j, depth, fmt, dt);
      assert s == Decimal(i);
      assert s[0] == '-' || IsDigit(s[0]);
    case _ =>
  }

  lemma ParseLiterals(rest: string)
    ensures ParseValue("null" + rest) == Done(Null, rest)
    ensures ParseValue("false" + rest) == Done(False, rest)
    ensures ParseValue("true" + rest) == Done(True, rest)
  {
    assert ("null" + rest)[..4] == "null" && ("null" + rest)[4..] == rest;
    assert ("false" + rest)[..5] == "false" && ("false" + rest)[5..] == rest;
    assert ("true" + rest)[..4] == "true" && ("true" + rest)[4..] == rest;
    assert ("false" + rest)[0] == 'f' && ("true" + rest)[0] == 't';
  }

  lemma NotLiteral(s: string)
    requires s != "" && s[0] != 'n' && s[0] != 'f' && s[0] != 't'
    ensures !StartsWith(s, "null") && !StartsWith(s, "false") && !StartsWith(s, "true")
  {
  }

  lemma ParseStringValue(s: string, t: string, rest: string)
    requires s != "" && s[0] == '\"' && ParseString(s) == Done(t, rest)
    ensures ParseValue(s) == Done(String(t), rest)
  {
    hide ParseString, StartsWith;
    NotLiteral(s);
  }

  lemma ParseNumberValue(s: string)
    requires s != "" && (s[0] == '-' || IsDigit(s[0]))
    ensures ParseValue(s) == ParseNumber(s)
  {
    hide ParseNumber, StartsWith;
    NotLiteral(s);
  }

  lemma ParseArrayValue(s: string, items: seq<Json>, rest: string)
    requires s != "" && s[0] == '['
    requires var t := Skip(s[1..]);
             if Front(t) == ']' then items == [] && rest == t[1..] else ParseItems(t) == Done(items, rest)
    ensures ParseValue(s) == Done(Array(items), rest)
  {
    hide ParseItems, StartsWith;
    NotLiteral(s);
  }

  lemma ParseObjectValue(s: string, ms: seq<Member>, rest: string)
    requires s != "" && s[0] == '{'
    requires var t := Skip(s[1..]);
             if Front(t) == '}' then ms == [] && rest == t[1..] else ParseMembers(t) == Done(ms, rest)
    ensures ParseValue(s) == Done(Object(ms), rest)
  {
    hide ParseMembers, StartsWith;
    NotLiteral(s);
  }

  lemma SkipSpaced(fmt: bool, t: string)
    requires t != "" && t[0] as int > 32
    ensures var u := (if fmt then [',', ' '] else [',']) + t;
            Skip(u) == u && Front(u) == ',' && Skip(u[1..]) == t
  {
    var u := (if fmt then [',', ' '] else [',']) + t;
    assert u[1..] == (if fmt then [' '] else []) + t;
    if fmt {
      assert u[1..][1..] == t;
    }
  }

  /** One value of an array and then the others. */
  lemma ItemsStep(s: string, v: Json, t: string, fmt: bool, vs: seq<Json>, rest: string)
    requires t != "" && t[0] as int > 32
    requires ParseValue(s) == Done(v, (if fmt then [',', ' '] else [',']) + t) && ParseItems(t) == Done(vs, rest)
    ensures ParseItems(s) == Done([v] + vs, rest)
  {
    hide ParseValue;
    SkipSpaced(fmt, t);
  }

  lemma ItemsEnd(s: string, v: Json, rest: string)
    requires ParseValue(s) == Done(v, [']'] + rest)
    ensures ParseItems(s) == Done([v], rest)
  {
    hide ParseValue;
    assert ([']'] + rest)[1..] == rest;
  }

  /** What stands between two members: a comma, or the end of the object. */
  lemma MembersStep(s: string, m: Member, fmt: bool, depth: nat, t0: string, t: string, ms: seq<Member>, rest: string)
    requires ParseString(s) == Done(m.name, [':'] + (if fmt then ['\t'] else []) + t0)
    requires t0 != "" && t0[0] as int > 32
    requires ParseValue(t0) == Done(m.value, [','] + (if fmt then ['\n'] else []) + t)
          && ParseMembers(Skip(t)) == Done(ms, rest)
    ensures ParseMembers(s) == Done([m] + ms, rest)
  {
    hide ParseValue, ParseString;
    var a := [':'] + (if fmt then ['\t'] else []) + t0;
    AfterMark(':', fmt, '\t', t0);
    AfterMark(',', fmt, '\n', t);
  }

  lemma MembersEnd(s: string, m: Member, fmt: bool, t0: string, t: string, rest: string)
    requires ParseString(s) == Done(m.name, [':'] + (if fmt then ['\t'] else []) + t0)
    requires t0 != "" && t0[0] as int > 32
    requires ParseValue(t0) == Done(m.value, t) && Skip(t) == ['}'] + rest
    ensures ParseMembers(s) == Done([m], rest)
  {
    hide ParseValue, ParseString;
    AfterMark(':', fmt, '\t', t0);
    assert (['}'] + rest)[1..] == rest;
  }

  lemma AfterMark(mark: char, fmt: bool, space: char, t: string)
    requires mark as int > 32 >= space as int
    ensures var u := [mark] + (if fmt then [space] else []) + t;
            Skip(u) == u && Front(u) == mark && Skip(u[1..]) == Skip(t)
    ensures t != "" && t[0] as int > 32 ==> Skip(t) == t
  {
    var u := [mark] + (if fmt then [space] else []) + t;
    assert u[1..] == (if fmt then [space] else []) + t;
    if fmt {
      assert u[1..][1..] == t;
    }
  }

  /** Printing then parsing, in front of anything that cannot continue a number. */
  lemma {:induction false} ValueParses(j: Json, depth: nat, fmt: bool, dt: DoubleText, rest: string)
    requires TextTree(j) && NumberEnds(rest)
    ensures ParseValue(ValueText(j, depth, fmt, dt) + rest) == Done(j, rest)
    decreases j
  {
    hide ParseValue, ParseItems, ParseMembers, ParseString, ParseNumber;
    var s := ValueText(j, depth, fmt, dt) + rest;
    ValueStarts(j, depth, fmt, dt);
    match j
    case Null => ParseLiterals(rest);
    case False => ParseLiterals(rest);
    case True => ParseLiterals(rest);
    case Number(i, d) =>
      DecimalParses(i, rest);
      ParseNumberValue(s);
    case String(t) =>
      StringParses(t, rest);
      ParseStringValue(s, t, rest);
    case Array(items) =>
      if items == [] {
        assert s[1..] == [']'] + rest && s[1..][1..] == rest;
      } else {
        var t := ItemsText(items, depth + 1, fmt, dt) + [']'] + rest;
        assert s[1..] == t;
        ItemsParse(items, depth + 1, fmt, dt, rest);
        SkipSolid(t);
      }
      ParseArrayValue(s, items, rest);
    case Object(ms) =>
      if ms == [] {
        EmptyObjectParses(depth, fmt, dt, rest);
      } else {
        ObjectParses(ms, depth, fmt, dt, rest);
      }
  }

  lemma ItemsSeam(v: string, sep: string, t: string, rest: string)
    ensures v + sep + t + [']'] + rest == v + (sep + (t + [']'] + rest))
    ensures v + [']'] + rest == v + ([']'] + rest)
  {
  }

  lemma {:induction false} ItemsParse(items: seq<Json>, depth: nat, fmt: bool, dt: DoubleText, rest: string)
    requires items != [] && forall x <- items :: TextTree(x)
    ensures var t := ItemsText(items, depth, fmt, dt) + [']'] + rest;
            t[0] as int > 32 && t[0] != ']' && ParseItems(t) == Done(items, rest)
    decreases items
  {
    hide ParseValue, ParseItems, ValueText, TextTree;
    var t := ItemsText(items, depth, fmt, dt) + [']'] + rest;
    var v := ValueText(items[0], depth, fmt, dt);
    assert TextTree(items[0]);
    ValueStarts(items[0], depth, fmt, dt);
    assert t[0] == v[0];
    if |items| == 1 {
      ItemsSeam(v, "", "", rest);
      ValueParses(items[0], depth, fmt, dt, [']'] + rest);
      ItemsEnd(t, items[0], rest);
      assert items == [items[0]];
    } else {
      var u := ItemsText(items[1..], depth, fmt, dt) + [']'] + rest;
      var sep := if fmt then [',', ' '] else [','];
      ItemsParse(items[1..], depth, fmt, dt, rest);
      ItemsSeam(v, sep, ItemsText(items[1..], depth, fmt, dt), rest);
      ValueParses(items[0], depth, fmt, dt, sep + u);
      ItemsStep(t, items[0], u, fmt, items[1..], rest);
      assert items == [items[0]] + items[1..];
    }
  }

  lemma EmptyObjectParses(depth: nat, fmt: bool, dt: DoubleText, rest: string)
    ensures ParseValue(ValueText(Object([]), depth, fmt, dt) + rest) == Done(Object([]), rest)
  {
    var s := ValueText(Object([]), depth, fmt, dt) + rest;
    hide ParseValue, ParseMembers;
    var e := ['}'] + rest;
    assert e[1..] == rest;
    SkipSolid(e);
    var u := if fmt then ['\n'] + (Tabs(depth - 1) + e) else e;
    assert s == ['{'] + u;
    if fmt {
      assert u[1..] == Tabs(depth - 1) + e;
      SkipTabs(depth - 1, e);
    }
    assert s[1..] == u;
    ParseObjectValue(s, [], rest);
  }

  lemma ObjectUnfold(ms: seq<Member>, depth: nat, fmt: bool, dt: DoubleText, rest: string)
    requires ms != []
    ensures ValueText(Object(ms), depth, fmt, dt) + rest
         == ['{'] + ((if fmt then ['\n'] else []) + (MembersText(ms, depth + 1, fmt, dt)
            + ((if fmt then Tabs(depth) else []) + (['}'] + rest))))
  {
    hide MembersText, Tabs;
    var nl := if fmt then ['\n'] else [];
    var tabs := if fmt then Tabs(depth) else [];
    assert ValueText(Object(ms), depth, fmt, dt) == ['{'] + nl + MembersText(ms, depth + 1, fmt, dt) + tabs + ['}'];
    Regroup5(['{'], nl, MembersText(ms, depth + 1, fmt, dt), tabs, ['}'], rest);
  }

  lemma Regroup5(a: string, b: string, c: string, d: string, e: string, f: string)
    ensures a + b + c + d + e + f == a + (b + (c + (d + (e + f))))
  {
  }

  lemma {:induction false} ObjectParses(ms: seq<Member>, depth: nat, fmt: bool, dt: DoubleText, rest: string)
    requires ms != [] && forall m <- ms :: TextMember(m)
    ensures ParseValue(ValueText(Object(ms), depth, fmt, dt) + rest) == Done(Object(ms), rest)
    decreases ms, 1
  {
    var s := ValueText(Object(ms), depth, fmt, dt) + rest;
    hide ParseValue, ParseMembers, TextMember, MembersText, ValueText;
    var e := ['}'] + rest;
    SkipSolid(e);
    var end := (if fmt then Tabs(depth) else []) + e;
    if fmt {
      SkipTabs(depth, e);
    } else {
      assert end == e;
    }
    var t := MembersText(ms, depth + 1, fmt, dt) + end;
    var u := (if fmt then ['\n'] else []) + t;
    ObjectUnfold(ms, depth, fmt, dt, rest);
    assert s[1..] == u;
    if fmt {
      assert u[1..] == t;
    } else {
      assert u == t;
    }
    MembersParse(ms, depth + 1, fmt, dt, end, rest);
    ParseObjectValue(s, ms, rest);
  }

  /** The text from a member's name on, up to its value and after it. */
  lemma MembersUnfold(ms: seq<Member>, depth: nat, fmt: bool, dt: DoubleText, end: string)
    requires ms != []
    ensures Skip(MembersText(ms, depth, fmt, dt) + end)
         == StringText(ms[0].name) + ([':'] + (if fmt then ['\t'] else [])
            + (ValueText(ms[0].value, depth, fmt, dt) + MembersNext(ms, depth, fmt, dt, end)))
  {
    var m := ms[0];
    var v := ValueText(m.value, depth, fmt, dt);
    var tail := MembersText(ms[1..], depth, fmt, dt);
    var comma, nl := if |ms| > 1 then [','] else [], if fmt then ['\n'] else [];
    var tabs, tab := if fmt then Tabs(depth) else [], if fmt then ['\t'] else [];
    assert MembersText(ms, depth, fmt, dt) == (tabs + StringText(m.name) + [':'] + tab) + v + comma + nl + tail;
    hide MembersText, ValueText, StringText, Tabs;
    Regroup9(tabs, StringText(m.name), [':'], tab, v, comma, nl, tail, end);
    var t := StringText(m.name) + ([':'] + tab + (v + (comma + nl + (tail + end))));
    StringStarts(m.name, [':'] + tab + (v + (comma + nl + (tail + end))));
    SkipSolid(t);
    if fmt {
      SkipTabs(depth, t);
    } else {
      assert tabs + t == t;
    }
  }

  /** What follows the value of the first member. */
  function MembersNext(ms: seq<Member>, depth: nat, fmt: bool, dt: DoubleText, end: string): string
    requires ms != []
  {
    (if |ms| > 1 then [','] else []) + (if fmt then ['\n'] else []) + (MembersText(ms[1..], depth, fmt, dt) + end)
  }

  lemma Regroup9(a: string, b: string, c: string, d: string, e: string, f: string, g: string, h: string, i: string)
    ensures ((a + b + c + d) + e + f + g + h) + i == a + (b + (c + d + (e + (f + g + (h + i)))))
  {
  }

  lemma StringStarts(s: string, t: string)
    ensures (StringText(s) + t)[0] == '\"'
  {
  }

  lemma NextIs(ms: seq<Member>, depth: nat, fmt: bool, dt: DoubleText, end: string)
    requires ms != []
    ensures var nl := if fmt then ['\n'] else [];
            if |ms| == 1 then MembersNext(ms, depth, fmt, dt, end) == nl + end && ms == [ms[0]]
            else MembersNext(ms, depth, fmt, dt, end) == [','] + nl + (MembersText(ms[1..], depth, fmt, dt) + end)
                 && ms == [ms[0]] + ms[1..]
  {
  }

  /** The first member, given what its value and the members after it parse to. */
  lemma FirstMember(ms: seq<Member>, depth: nat, fmt: bool, dt: DoubleText, end: string, rest: string)
    requires ms != [] && CText(ms[0].name) && TextTree(ms[0].value)
    requires Skip(end) == ['}'] + rest && (fmt || end == ['}'] + rest)
    requires var next := MembersNext(ms, depth, fmt, dt, end);
             ParseValue(ValueText(ms[0].value, depth, fmt, dt) + next) == Done(ms[0].value, next)
    requires |ms| > 1 ==> ParseMembers(Skip(MembersText(ms[1..], depth, fmt, dt) + end)) == Done(ms[1..], rest)
    ensures var t := Skip(MembersText(ms, depth, fmt, dt) + end);
            Front(t) == '\"' && ParseMembers(t) == Done(ms, rest)
  {
    hide ParseValue, ParseMembers, ParseString, TextTree, MembersText, MembersNext, ValueText, StringText, Skip, CText;
    MembersUnfold(ms, depth, fmt, dt, end);
    NextIs(ms, depth, fmt, dt, end);
    var v := ValueText(ms[0].value, depth, fmt, dt);
    var next := MembersNext(ms, depth, fmt, dt, end);
    ValueStarts(ms[0].value, depth, fmt, dt);
    StringParses(ms[0].name, [':'] + (if fmt then ['\t'] else []) + (v + next));
    if |ms| == 1 {
      AfterLast(fmt, end, rest);
      MembersEnd(Skip(MembersText(ms, depth, fmt, dt) + end), ms[0], fmt, v + next, next, rest);
    } else {
      MembersStep(Skip(MembersText(ms, depth, fmt, dt) + end), ms[0], fmt, depth, v + next,
                  MembersText(ms[1..], depth, fmt, dt) + end, ms[1..], rest);
    }
  }

  lemma NextEndsNumber(ms: seq<Member>, depth: nat, fmt: bool, dt: DoubleText, end: string, rest: string)
    requires ms != [] && Skip(end) == ['}'] + rest && (fmt || end == ['}'] + rest)
    ensures NumberEnds(MembersNext(ms, depth, fmt, dt, end))
  {
    if |ms| == 1 {
      assert MembersText(ms[1..], depth, fmt, dt) + end == end;
      AfterLast(fmt, end, rest);
    }
  }

  lemma {:induction false} MembersParse(ms: seq<Member>, depth: nat, fmt: bool, dt: DoubleText, end: string,
                                        rest: string)
    requires ms != [] && (forall m <- ms :: TextMember(m)) && Skip(end) == ['}'] + rest && (fmt || end == ['}'] + rest)
    ensures var t := Skip(MembersText(ms, depth, fmt, dt) + end);
            Front(t) == '\"' && ParseMembers(t) == Done(ms, rest)
    decreases ms, 0
  {
    var m := ms[0];
    assert TextMember(m) && m.value < m && TextTree(m.value);
    hide ParseValue, ParseMembers, TextMember, TextTree, MembersText, MembersNext, ValueText, Skip, NumberEnds;
    NextEndsNumber(ms, depth, fmt, dt, end, rest);
    ValueParses(m.value, depth, fmt, dt, MembersNext(ms, depth, fmt, dt, end));
    if |ms| > 1 {
      MembersParse(ms[1..], depth, fmt, dt, end, rest);
    }
    FirstMember(ms, depth, fmt, dt, end, rest);
  }

  lemma AfterLast(fmt: bool, end: string, rest: string)
    requires Skip(end) == ['}'] + rest && (fmt || end == ['}'] + rest)
    ensures var next := (if fmt then ['\n'] else []) + end;
            Skip(next) == ['}'] + rest && NumberEnds(next)
  {
    if fmt {
      assert (['\n'] + end)[1..] == end;
    } else {
      assert [] + end == end;
    }
  }

  /** An object needs nothing of what follows it. */
  lemma AnyObjectParses(ms: seq<Member>, depth: nat, fmt: bool, dt: DoubleText, rest: string)
    requires TextTree(Object(ms))
    ensures ParseValue(ValueText(Object(ms), depth, fmt, dt) + rest) == Done(Object(ms), rest)
  {
    hide ParseValue, ValueText;
    if ms == [] {
      EmptyObjectParses(depth, fmt, dt, rest);
    } else {
      ObjectParses(ms, depth, fmt, dt, rest);
    }
  }

  /** With the check for trailing text, parsing a printed tree consumes all of it and
      gives the tree back. */
  lemma PrintedParses(j: Json, depth: nat, fmt: bool, dt: DoubleText)
    requires TextTree(j)
    ensures ParseWithOpts(ValueText(j, depth, fmt, dt), true) == Done(j, "")
  {
    hide ParseValue, ValueText;
    ValueStarts(j, depth, fmt, dt);
    ValueParses(j, depth, fmt, dt, "");
    var s := ValueText(j, depth, fmt, dt);
    assert s + "" == s;
    SkipSolid(s);
  }
}
