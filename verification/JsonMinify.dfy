/** Minifying a printed tree gives its unformatted print. */
module JsonMinify {
  import opened Basics
  import opened JsonText
  import opened JsonTree

  function Prepend(a: string, m: Option<string>): Option<string> {
    match m
    case None => None
    case Some(s) => Some(a + s)
  }

  lemma PrependTwice(a: string, b: string, m: Option<string>)
    ensures Prepend(a, Prepend(b, m)) == Prepend(a + b, m)
  {
    assert m.Some? ==> a + (b + m.value) == a + b + m.value;
  }

  // ---- Single characters

  predicate Blank(c: char) {
    c == ' ' || c == '\t' || c == '\r' || c == '\n'
  }

  predicate PlainChar(c: char) {
    !Blank(c) && c != '/' && c != '\"'
  }

  ghost predicate Plain(s: string) {
    forall i :: 0 <= i < |s| ==> PlainChar(s[i])
  }

  /** How the C library writes doubles: no blanks, slashes or quotes. */
  ghost predicate PlainDoubles(dt: DoubleText) {
    forall d: real :: Plain(dt(d))
  }

  lemma BlankDropped(c: char, s: string)
    requires Blank(c)
    ensures Minified([c] + s) == Minified(s)
  {
    assert ([c] + s)[1..] == s;
  }

  lemma {:induction false} TabsDropped(n: int, s: string)
    ensures Minified(Tabs(n) + s) == Minified(s)
  {
    if n <= 0 {
      assert Tabs(n) + s == s;
    } else {
      assert Tabs(n) + s == ['\t'] + (Tabs(n - 1) + s);
      BlankDropped('\t', Tabs(n - 1) + s);
      TabsDropped(n - 1, s);
    }
  }

  lemma PlainKept(c: char, s: string)
    requires PlainChar(c)
    ensures Minified([c] + s) == Prepend([c], Minified(s))
  {
    assert ([c] + s)[1..] == s;
  }

  lemma {:induction false} PlainTextKept(a: string, s: string)
    requires Plain(a)
    ensures Minified(a + s) == Prepend(a, Minified(s))
    decreases a
  {
    if a == "" {
      assert a + s == s;
      assert Minified(s).Some? ==> "" + Minified(s).value == Minified(s).value;
    } else {
      assert a + s == [a[0]] + (a[1..] + s);
      PlainKept(a[0], a[1..] + s);
      PlainTextKept(a[1..], s);
      PrependTwice([a[0]], a[1..], Minified(s));
      assert [a[0]] + a[1..] == a;
    }
  }

  lemma {:induction false} DigitsPlain(n: nat)
    ensures Plain(Digits(n))
  {
    if n >= 10 {
      DigitsPlain(n / 10);
    }
  }

  // ---- Strings

  /** An escaped character is passed over whole. */
  lemma EscapePassed(c: char, s: string, p: (string, string))
    requires Literal(s) == Some(p)
    ensures Literal(EscapeChar(c) + s) == Some((EscapeChar(c) + p.0, p.1))
  {
    EscapeShape(c);
    hide EscapeChar, Literal;
    var e := EscapeChar(c);
    if |e| == 1 {
      LiteralStep(c, s);
    } else if |e| == 2 {
      LiteralPair(e[1], s);
    } else {
      var a := e[2..];
      LettersPassed(a, s, p);
      LiteralPair('u', a + s);
      Seam2(['\\', 'u'], a, s);
      Seam2(['\\', 'u'], a, p.0);
    }
  }

  lemma EscapeShape(c: char)
    ensures var e := EscapeChar(c);
            || (e == [c] && c != '\"' && c != '\\')
            || (|e| == 2 && e == ['\\', e[1]])
            || (|e| == 6 && e == ['\\', 'u'] + e[2..] && Letters(e[2..]))
  {
  }

  predicate Letters(a: string) {
    forall i :: 0 <= i < |a| ==> a[i] != '\"' && a[i] != '\\'
  }

  lemma LiteralPair(c: char, s: string)
    ensures Literal(s).Some? ==> Literal(['\\', c] + s) == Some((['\\', c] + Literal(s).value.0, Literal(s).value.1))
  {
    var t := ['\\', c] + s;
    assert t[2..] == s && t[..2] == ['\\', c];
  }

  lemma LiteralStep(c: char, s: string)
    requires c != '\"' && c != '\\'
    ensures Literal(s).Some? ==> Literal([c] + s) == Some(([c] + Literal(s).value.0, Literal(s).value.1))
  {
    assert ([c] + s)[1..] == s && ([c] + s)[..1] == [c];
  }

  lemma {:induction false} LettersPassed(a: string, s: string, p: (string, string))
    requires Letters(a) && Literal(s) == Some(p)
    ensures Literal(a + s) == Some((a + p.0, p.1))
  {
    hide Literal;
    if a == "" {
      assert a + s == s && a + p.0 == p.0;
    } else {
      LettersPassed(a[1..], s, p);
      LiteralStep(a[0], a[1..] + s);
      Split(a, s);
      Split(a, p.0);
    }
  }

  lemma LiteralQuote(rest: string)
    ensures Literal(['\"'] + rest) == Some((['\"'], rest))
  {
    assert (['\"'] + rest)[..1] == ['\"'] && (['\"'] + rest)[1..] == rest;
  }

  lemma {:induction false} EscapedPassed(s: string, rest: string)
    ensures Literal(Escaped(s) + ['\"'] + rest) == Some((Escaped(s) + ['\"'], rest))
  {
    hide Literal, Escaped, EscapeChar;
    EscapedUnfold(s, rest);
    if s == "" {
      LiteralQuote(rest);
    } else {
      EscapedPassed(s[1..], rest);
      EscapePassed(s[0], Escaped(s[1..]) + ['\"'] + rest, (Escaped(s[1..]) + ['\"'], rest));
    }
  }

  lemma StringKept(s: string, rest: string)
    ensures Minified(StringText(s) + rest) == Prepend(StringText(s), Minified(rest))
  {
    hide Literal, Escaped, StringText;
    EscapedPassed(s, rest);
    StringUnfold(s, rest);
  }

  // ---- Trees

  /** Minifying drops the formatting and nothing else. */
  lemma {:induction false} ValueMinifies(j: Json, depth: nat, d2: nat, fmt: bool, dt: DoubleText, rest: string)
    requires PlainDoubles(dt)
    ensures Minified(ValueText(j, depth, fmt, dt) + rest) == Prepend(ValueText(j, d2, false, dt), Minified(rest))
    decreases j
  {
    hide Minified, Prepend, PlainDoubles;
    match j
    case Null => PlainTextKept("null", rest);
    case False => PlainTextKept("false", rest);
    case True => PlainTextKept("true", rest);
    case Number(i, d) => NumberKept(i, d, dt, rest);
    case String(t) => StringKept(t, rest);
    case Array(items) =>
      if items == [] {
        PlainTextKept("[]", rest);
      } else {
        var a, b := ItemsText(items, depth + 1, fmt, dt), ItemsText(items, d2 + 1, false, dt);
        Bracketed('[', a, ']', rest);
        ItemsMinify(items, depth + 1, d2 + 1, fmt, dt, [']'] + rest);
        Rejoined('[', b, ']', rest);
      }
    case Object(ms) =>
      if ms == [] {
        EmptyObjectMinifies(depth, d2, fmt, dt, rest);
      } else {
        ObjectMinifies(ms, depth, d2, fmt, dt, rest);
      }
  }

  lemma NumberKept(i: int, d: real, dt: DoubleText, rest: string)
    requires PlainDoubles(dt)
    ensures Minified(NumberText(i, d, dt) + rest) == Prepend(NumberText(i, d, dt), Minified(rest))
  {
    DigitsPlain(if i < 0 then -i else i);
    assert Plain(dt(d));
    PlainTextKept(NumberText(i, d, dt), rest);
  }

  lemma Bracketed(open: char, a: string, close: char, rest: string)
    requires PlainChar(open)
    ensures Minified([open] + a + [close] + rest) == Prepend([open], Minified(a + ([close] + rest)))
  {
    assert [open] + a + [close] + rest == [open] + (a + ([close] + rest));
    PlainKept(open, a + ([close] + rest));
  }

  lemma Rejoined(open: char, b: string, close: char, rest: string)
    requires PlainChar(close)
    ensures Prepend([open], Prepend(b, Minified([close] + rest))) == Prepend([open] + b + [close], Minified(rest))
  {
    PlainKept(close, rest);
    PrependTwice(b, [close], Minified(rest));
    PrependTwice([open], b + [close], Minified(rest));
    assert [open] + (b + [close]) == [open] + b + [close];
  }

  lemma CommaMinifies(fmt: bool, space: char, s: string)
    requires Blank(space)
    ensures Minified((if fmt then [',', space] else [',']) + s) == Prepend([','], Minified(s))
  {
    if fmt {
      assert [',', space] + s == [','] + ([space] + s);
      PlainKept(',', [space] + s);
      BlankDropped(space, s);
    } else {
      PlainKept(',', s);
    }
  }

  lemma {:induction false} ItemsMinify(items: seq<Json>, depth: nat, d2: nat, fmt: bool, dt: DoubleText, rest: string)
    requires PlainDoubles(dt)
    ensures Minified(ItemsText(items, depth, fmt, dt) + rest)
         == Prepend(ItemsText(items, d2, false, dt), Minified(rest))
    decreases items
  {
    hide Minified, Prepend, PlainDoubles, ValueText;
    if items == [] {
      PlainTextKept("", rest);
    } else if |items| == 1 {
      ValueMinifies(items[0], depth, d2, fmt, dt, rest);
    } else {
      var v, w := ValueText(items[0], depth, fmt, dt), ValueText(items[0], d2, false, dt);
      var t, u := ItemsText(items[1..], depth, fmt, dt), ItemsText(items[1..], d2, false, dt);
      var sep := if fmt then [',', ' '] else [','];
      assert v + sep + t + rest == v + (sep + (t + rest));
      ValueMinifies(items[0], depth, d2, fmt, dt, sep + (t + rest));
      CommaMinifies(fmt, ' ', t + rest);
      ItemsMinify(items[1..], depth, d2, fmt, dt, rest);
      PrependTwice([','], u, Minified(rest));
      PrependTwice(w, [','] + u, Minified(rest));
      assert w + ([','] + u) == w + [','] + u;
    }
  }

  lemma EmptyObjectMinifies(depth: nat, d2: nat, fmt: bool, dt: DoubleText, rest: string)
    ensures Minified(ValueText(Object([]), depth, fmt, dt) + rest)
         == Prepend(ValueText(Object([]), d2, false, dt), Minified(rest))
  {
    hide Minified, Prepend, Tabs;
    var e := ['}'] + rest;
    if fmt {
      var s := ['{'] + (['\n'] + Tabs(depth - 1)) + ['}'] + rest;
      assert s == ['{'] + (['\n'] + (Tabs(depth - 1) + e));
      PlainKept('{', ['\n'] + (Tabs(depth - 1) + e));
      BlankDropped('\n', Tabs(depth - 1) + e);
      TabsDropped(depth - 1, e);
    } else {
      assert ['{'] + [] + ['}'] + rest == ['{'] + e;
      PlainKept('{', e);
    }
    PlainKept('}', rest);
    PrependTwice(['{'], ['}'], Minified(rest));
    assert ['{'] + [] + ['}'] == ['{'] + ['}'];
  }

  lemma {:induction false} ObjectMinifies(ms: seq<Member>, depth: nat, d2: nat, fmt: bool, dt: DoubleText, rest: string)
    requires PlainDoubles(dt) && ms != []
    ensures Minified(ValueText(Object(ms), depth, fmt, dt) + rest)
         == Prepend(ValueText(Object(ms), d2, false, dt), Minified(rest))
    decreases ms, 1
  {
    hide Minified, Prepend, PlainDoubles, ValueText, MembersText, Tabs;
    var nl, tabs := if fmt then ['\n'] else [], if fmt then Tabs(depth) else [];
    var a, b := MembersText(ms, depth + 1, fmt, dt), MembersText(ms, d2 + 1, false, dt);
    var e := ['}'] + rest;
    ObjectUnfold(ms, depth, fmt, dt);
    ObjectUnfold(ms, d2, false, dt);
    ObjectSeam(nl, a, tabs, rest);
    PlainKept('{', nl + (a + (tabs + e)));
    BlanksDropped(fmt, '\n', 0, a + (tabs + e));
    MembersMinify(ms, depth + 1, d2 + 1, fmt, dt, tabs + e);
    BlanksDropped(fmt, '\n', depth, e);
    Rejoined('{', b, '}', rest);
  }

  lemma ObjectUnfold(ms: seq<Member>, depth: nat, fmt: bool, dt: DoubleText)
    requires ms != []
    ensures var a := MembersText(ms, depth + 1, fmt, dt);
            ValueText(Object(ms), depth, fmt, dt) == if fmt then ['{'] + ['\n'] + a + Tabs(depth) + ['}']
                                                     else ['{'] + a + ['}']
  {
    hide MembersText, Tabs;
    var a := MembersText(ms, depth + 1, fmt, dt);
    assert ['{'] + [] + a + [] + ['}'] == ['{'] + a + ['}'];
  }

  lemma ObjectSeam(nl: string, a: string, tabs: string, rest: string)
    ensures ['{'] + nl + a + tabs + ['}'] + rest == ['{'] + (nl + (a + (tabs + (['}'] + rest))))
    ensures ['{'] + a + ['}'] + rest == ['{'] + ([] + (a + ([] + (['}'] + rest))))
  {
  }

  /** The formatting marks, present or not. */
  lemma BlanksDropped(fmt: bool, c: char, n: nat, s: string)
    requires Blank(c)
    ensures Minified((if fmt then [c] else []) + s) == Minified(s)
    ensures Minified((if fmt then Tabs(n) else []) + s) == Minified(s)
  {
    hide Minified;
    if fmt {
      BlankDropped(c, s);
      TabsDropped(n, s);
    } else {
      assert [] + s == s;
    }
  }

  /** One member and the others, as text around the value. */
  lemma MembersUnfold(ms: seq<Member>, depth: nat, fmt: bool, dt: DoubleText, rest: string)
    requires ms != []
    ensures MembersText(ms, depth, fmt, dt) + rest
         == (if fmt then Tabs(depth) else []) + (StringText(ms[0].name) + ([':'] + ((if fmt then ['\t'] else [])
            + (ValueText(ms[0].value, depth, fmt, dt) + (Comma(ms) + ((if fmt then ['\n'] else [])
            + (MembersText(ms[1..], depth, fmt, dt) + rest)))))))
  {
    var tabs, tab, nl := if fmt then Tabs(depth) else [], if fmt then ['\t'] else [], if fmt then ['\n'] else [];
    assert MembersText(ms, depth, fmt, dt)
        == (tabs + StringText(ms[0].name) + [':'] + tab) + ValueText(ms[0].value, depth, fmt, dt) + Comma(ms) + nl
           + MembersText(ms[1..], depth, fmt, dt);
    hide MembersText, ValueText, StringText, Tabs, Comma;
    MemberSeam(tabs, StringText(ms[0].name), tab, ValueText(ms[0].value, depth, fmt, dt), Comma(ms), nl,
               MembersText(ms[1..], depth, fmt, dt), rest);
  }

  function Comma(ms: seq<Member>): string {
    if |ms| > 1 then [','] else []
  }

  lemma MemberSeam(tabs: string, name: string, tab: string, v: string, comma: string, nl: string, t: string,
                   rest: string)
    ensures (tabs + name + [':'] + tab) + v + comma + nl + t + rest
         == tabs + (name + ([':'] + (tab + (v + (comma + (nl + (t + rest)))))))
  {
  }

  /** The five pieces that stay, put together again. */
  lemma Glued(name: string, w: string, comma: string, u: string, m: Option<string>)
    ensures Prepend(name, Prepend([':'], Prepend(w, Prepend(comma, Prepend(u, m)))))
         == Prepend(name + ([':'] + (w + (comma + u))), m)
  {
    PrependTwice(comma, u, m);
    PrependTwice(w, comma + u, m);
    PrependTwice([':'], w + (comma + u), m);
    PrependTwice(name, [':'] + (w + (comma + u)), m);
  }

  lemma Unformatted(ms: seq<Member>, d2: nat, dt: DoubleText)
    requires ms != []
    ensures MembersText(ms, d2, false, dt)
         == StringText(ms[0].name)
            + ([':'] + (ValueText(ms[0].value, d2, false, dt) + (Comma(ms) + MembersText(ms[1..], d2, false, dt))))
  {
    MembersUnfold(ms, d2, false, dt, []);
    hide MembersText, ValueText, StringText, Comma;
    NoMarks(MembersText(ms, d2, false, dt), StringText(ms[0].name), ValueText(ms[0].value, d2, false, dt),
            Comma(ms), MembersText(ms[1..], d2, false, dt));
  }

  lemma NoMarks(s: string, n: string, w: string, c: string, u: string)
    ensures s + [] == s
    ensures [] + (n + ([':'] + ([] + (w + (c + ([] + (u + []))))))) == n + ([':'] + (w + (c + u)))
  {
    assert u + [] == u;
    assert [] + u == u;
    assert [] + (w + (c + u)) == w + (c + u);
  }

  lemma CommaKept(ms: seq<Member>, s: string)
    ensures Minified(Comma(ms) + s) == Prepend(Comma(ms), Minified(s))
  {
    PlainTextKept(Comma(ms), s);
  }

  lemma {:induction false} MembersMinify(ms: seq<Member>, depth: nat, d2: nat, fmt: bool, dt: DoubleText, rest: string)
    requires PlainDoubles(dt)
    ensures Minified(MembersText(ms, depth, fmt, dt) + rest) == Prepend(MembersText(ms, d2, false, dt), Minified(rest))
    decreases ms, 0
  {
    if ms == [] {
      PlainTextKept("", rest);
    } else {
      assert ms[0].value < ms[0];
      hide Minified, Prepend, PlainDoubles, ValueText, MembersText, Tabs, StringText, Comma;
      var name, v := StringText(ms[0].name), ValueText(ms[0].value, depth, fmt, dt);
      var t := MembersText(ms[1..], depth, fmt, dt) + rest;
      var afterValue := Comma(ms) + ((if fmt then ['\n'] else []) + t);
      var tab := if fmt then ['\t'] else [];
      MembersUnfold(ms, depth, fmt, dt, rest);
      BlanksDropped(fmt, '\t', depth, name + ([':'] + (tab + (v + afterValue))));
      StringKept(ms[0].name, [':'] + (tab + (v + afterValue)));
      PlainKept(':', tab + (v + afterValue));
      BlanksDropped(fmt, '\t', 0, v + afterValue);
      ValueMinifies(ms[0].value, depth, d2, fmt, dt, afterValue);
      CommaKept(ms, (if fmt then ['\n'] else []) + t);
      BlanksDropped(fmt, '\n', 0, t);
      MembersMinify(ms[1..], depth, d2, fmt, dt, rest);
      Glued(name, ValueText(ms[0].value, d2, false, dt), Comma(ms), MembersText(ms[1..], d2, false, dt),
            Minified(rest));
      Unformatted(ms, d2, dt);
    }
  }

  /** Formatted or not, the minified print is the unformatted print, byte for byte. */
  lemma PrintedMinifies(j: Json, depth: nat, d2: nat, fmt: bool, dt: DoubleText)
    requires PlainDoubles(dt)
    ensures Minified(ValueText(j, depth, fmt, dt)) == Some(ValueText(j, d2, false, dt))
  {
    ValueMinifies(j, depth, d2, fmt, dt, "");
    assert ValueText(j, depth, fmt, dt) + "" == ValueText(j, depth, fmt, dt);
    assert Minified("") == Some("") && ValueText(j, d2, false, dt) + "" == ValueText(j, d2, false, dt);
  }

  // ---- Which texts the minifier does not run out of

  /** Where a text leaves a reader that takes it character by character. */
  datatype Mode = Outside | InLine | InBlock | InString | Behind

  function EndsIn(mode: Mode, s: string): Mode
    decreases |s|, if mode == InLine then 1 else 0
  {
    if s == "" then mode
    else match mode
      case Outside =>
        if s[0] == '/' && Front(s[1..]) == '/' then EndsIn(InLine, s[1..])
        else if s[0] == '/' && Front(s[1..]) == '*' then EndsIn(InBlock, s[1..])
        else EndsIn(if s[0] == '\"' then InString else Outside, s[1..])
      case InLine => if s[0] == '\n' then EndsIn(Outside, s) else EndsIn(InLine, s[1..])
      case InBlock => if s[0] == '*' && Front(s[1..]) == '/' then EndsIn(Outside, s[2..]) else EndsIn(InBlock, s[1..])
      case InString =>
        EndsIn(if s[0] == '\"' then Outside else if s[0] == '\\' then Behind else InString, s[1..])
      case Behind => EndsIn(InString, s[1..])
  }

  /** Not in a string, behind a backslash in one, or in a block comment. */
  predicate Settled(mode: Mode) {
    mode == Outside || mode == InLine
  }

  lemma {:induction false} LineEnds(s: string)
    ensures Settled(EndsIn(InLine, s)) <==> Settled(EndsIn(Outside, DropLine(s)))
  {
    if s != "" && s[0] != '\n' {
      LineEnds(s[1..]);
    }
  }

  lemma {:induction false} BlockEnds(s: string)
    ensures EndsIn(InBlock, s) == if DropBlock(s).Some? then EndsIn(Outside, DropBlock(s).value) else InBlock
  {
    if s != "" && !(s[0] == '*' && Front(s[1..]) == '/') {
      BlockEnds(s[1..]);
    }
  }

  lemma {:induction false} LiteralEnds(s: string)
    ensures Literal(s).Some? ==> EndsIn(InString, s) == EndsIn(Outside, Literal(s).value.1)
    ensures Literal(s).None? ==> !Settled(EndsIn(InString, s))
    decreases |s|
  {
    if s != "" && s[0] != '\"' {
      if s[0] == '\\' && |s| >= 2 {
        assert EndsIn(Behind, s[1..]) == EndsIn(InString, s[1..][1..]) && s[1..][1..] == s[2..];
        LiteralEnds(s[2..]);
      } else if s[0] != '\\' {
        LiteralEnds(s[1..]);
      } else {
        assert s[1..] == "";
      }
    }
  }

  /** The minifier stays inside the text exactly when the text does not end in a string,
      behind a backslash in one, or in a block comment. */
  lemma {:induction false} MinifiedIff(s: string)
    ensures Minified(s).Some? <==> Settled(EndsIn(Outside, s))
    decreases |s|
  {
    hide DropLine, DropBlock, Literal;
    if s != "" {
      if s[0] == '/' && Front(s[1..]) == '/' {
        LineEnds(s[1..]);
        MinifiedIff(DropLine(s[1..]));
      } else if s[0] == '/' && Front(s[1..]) == '*' {
        BlockEnds(s[1..]);
        if DropBlock(s[1..]).Some? {
          MinifiedIff(DropBlock(s[1..]).value);
        }
      } else if s[0] == '\"' {
        LiteralEnds(s[1..]);
        if Literal(s[1..]).Some? {
          MinifiedIff(Literal(s[1..]).value.1);
        }
      } else {
        MinifiedIff(s[1..]);
      }
    }
  }

  /** A lone quote is one text it runs out of. */
  lemma LoneQuoteFails()
    ensures Minified("\"") == None
  {
    assert "\""[1..] == "";
  }
}
