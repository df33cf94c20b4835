/** What the printers write, laid out without recursion: the separators of the two formats,
    the escapes, and which numbers are printed as ints. */
module JsonLayout {
  import opened Basics
  import opened JsonRoundTrip
  import opened JsonText
  import opened JsonTree
  import opened Numerals

  /** The parts with `mark` between them. */
  function Glued(parts: seq<string>, mark: string): string {
    if parts == [] then "" else if |parts| == 1 then parts[0] else parts[0] + mark + Glued(parts[1..], mark)
  }

  /** That many tabs, none for a negative number. */
  function Indent(n: int): string {
    seq(if n < 0 then 0 else n, _ => '\t')
  }

  lemma {:induction false} TabsIndent(n: int)
    ensures Tabs(n) == Indent(n)
    decreases if n < 0 then 0 else n
  {
    if n > 0 {
      TabsIndent(n - 1);
    }
  }

  function Values(items: seq<Json>, depth: nat, fmt: bool, dt: DoubleText): seq<string> {
    seq(|items|, i requires 0 <= i < |items| => ValueText(items[i], depth, fmt, dt))
  }

  /** One member: without blanks, or behind tabs and with a tab after the colon. */
  function Entry(m: Member, depth: nat, fmt: bool, dt: DoubleText): string {
    if fmt then Indent(depth) + StringText(m.name) + ":\t" + ValueText(m.value, depth, fmt, dt)
    else StringText(m.name) + ":" + ValueText(m.value, depth, fmt, dt)
  }

  function Entries(ms: seq<Member>, depth: nat, fmt: bool, dt: DoubleText): seq<string> {
    seq(|ms|, i requires 0 <= i < |ms| => Entry(ms[i], depth, fmt, dt))
  }

  lemma {:induction false} ItemsGlued(items: seq<Json>, depth: nat, fmt: bool, dt: DoubleText)
    ensures ItemsText(items, depth, fmt, dt) == Glued(Values(items, depth, fmt, dt), if fmt then ", " else ",")
    decreases items
  {
    hide ValueText;
    var parts := Values(items, depth, fmt, dt);
    if |items| > 1 {
      ItemsGlued(items[1..], depth, fmt, dt);
      assert parts[1..] == Values(items[1..], depth, fmt, dt);
    }
  }

  lemma {:induction false} MembersGlued(ms: seq<Member>, depth: nat, fmt: bool, dt: DoubleText)
    requires ms != []
    ensures MembersText(ms, depth, fmt, dt)
         == Glued(Entries(ms, depth, fmt, dt), if fmt then ",\n" else ",") + if fmt then "\n" else ""
    decreases ms
  {
    hide ValueText, NameText, MembersText, Entry, Entries, Glued;
    var parts, mark := Entries(ms, depth, fmt, dt), if fmt then ",\n" else ",";
    EntryWritten(ms[0], depth, fmt, dt);
    MemberFirst(ms, depth, fmt, dt);
    EntriesFirst(ms, depth, fmt, dt);
    GluedFirst(parts, mark);
    if |ms| > 1 {
      MembersGlued(ms[1..], depth, fmt, dt);
      var rest, end := Glued(parts[1..], mark), if fmt then "\n" else "";
      assert parts[0] + mark + (rest + end) == parts[0] + mark + rest + end;
      assert parts[0] + (mark + (rest + end)) == parts[0] + mark + rest + end;
    }
  }

  lemma EntriesFirst(ms: seq<Member>, depth: nat, fmt: bool, dt: DoubleText)
    requires ms != []
    ensures var parts := Entries(ms, depth, fmt, dt);
            && |parts| == |ms| && parts[0] == Entry(ms[0], depth, fmt, dt)
            && parts[1..] == Entries(ms[1..], depth, fmt, dt)
  {
    hide Entry;
  }

  lemma GluedFirst(parts: seq<string>, mark: string)
    requires parts != []
    ensures Glued(parts, mark) == if |parts| == 1 then parts[0] else parts[0] + mark + Glued(parts[1..], mark)
  {
  }

  lemma EntryWritten(m: Member, depth: nat, fmt: bool, dt: DoubleText)
    ensures NameText(m, depth, fmt) + ValueText(m.value, depth, fmt, dt) == Entry(m, depth, fmt, dt)
  {
    hide ValueText, StringText, Tabs;
    TabsIndent(depth);
  }

  /** The first member, what separates it, and the others. */
  lemma MemberFirst(ms: seq<Member>, depth: nat, fmt: bool, dt: DoubleText)
    requires ms != []
    ensures MembersText(ms, depth, fmt, dt)
         == NameText(ms[0], depth, fmt) + ValueText(ms[0].value, depth, fmt, dt)
            + (if |ms| == 1 then if fmt then "\n" else ""
               else (if fmt then ",\n" else ",") + MembersText(ms[1..], depth, fmt, dt))
  {
    hide ValueText, NameText;
    var a := NameText(ms[0], depth, fmt) + ValueText(ms[0].value, depth, fmt, dt);
    var more := MembersText(ms[1..], depth, fmt, dt);
    if |ms| == 1 {
      assert ms[1..] == [] && more == "";
      assert a + [] + (if fmt then ['\n'] else []) + more == a + if fmt then "\n" else "";
    } else {
      assert a + [','] + (if fmt then ['\n'] else []) + more == a + ((if fmt then ",\n" else ",") + more);
    }
  }

  /** The two formats: unformatted without any blank, formatted with a comma and a space
      between the values of an array, and every member of an object on a line of its own. */
  lemma Layout(items: seq<Json>, ms: seq<Member>, depth: nat, fmt: bool, dt: DoubleText)
    ensures ValueText(Array(items), depth, fmt, dt)
         == "[" + Glued(Values(items, depth + 1, fmt, dt), if fmt then ", " else ",") + "]"
    ensures ms != [] ==>
              ValueText(Object(ms), depth, true, dt)
              == "{\n" + Glued(Entries(ms, depth + 1, true, dt), ",\n") + "\n" + Indent(depth) + "}"
    ensures ms != [] ==>
              ValueText(Object(ms), depth, false, dt) == "{" + Glued(Entries(ms, depth + 1, false, dt), ",") + "}"
    ensures ValueText(Object([]), depth, true, dt) == "{\n" + Indent(depth - 1) + "}"
    ensures ValueText(Object([]), depth, false, dt) == "{}"
  {
    hide ItemsText, MembersText, Values, Entries, Glued, Tabs, Indent;
    ItemsGlued(items, depth + 1, fmt, dt);
    NoValues(depth + 1, fmt, dt);
    TabsIndent(depth);
    TabsIndent(depth - 1);
    if ms != [] {
      MembersGlued(ms, depth + 1, true, dt);
      MembersGlued(ms, depth + 1, false, dt);
      ObjectLines(ms, depth, dt);
    }
  }

  lemma NoValues(depth: nat, fmt: bool, dt: DoubleText)
    ensures Glued(Values([], depth, fmt, dt), if fmt then ", " else ",") == ""
  {
  }

  lemma ObjectLines(ms: seq<Member>, depth: nat, dt: DoubleText)
    requires ms != []
    ensures ValueText(Object(ms), depth, true, dt)
         == "{\n" + MembersText(ms, depth + 1, true, dt) + Tabs(depth) + "}"
    ensures ValueText(Object(ms), depth, false, dt) == "{" + MembersText(ms, depth + 1, false, dt) + "}"
  {
    hide MembersText, Tabs;
    var a, b := MembersText(ms, depth + 1, true, dt), MembersText(ms, depth + 1, false, dt);
    assert ['{'] + ['\n'] + a + Tabs(depth) + ['}'] == "{\n" + a + Tabs(depth) + "}";
    assert ['{'] + [] + b + [] + ['}'] == "{" + b + "}";
  }

  /** The escapes: two characters for seven of them, `\u00` and two small hexadecimal digits
      for the other control characters, and every other character as itself. */
  lemma EscapesWritten(c: char)
    ensures EscapeChar('\"') == "\\\"" && EscapeChar('\\') == "\\\\" && EscapeChar('\U{8}') == "\\b"
    ensures EscapeChar('\U{C}') == "\\f" && EscapeChar('\U{A}') == "\\n" && EscapeChar('\U{D}') == "\\r"
    ensures EscapeChar('\U{9}') == "\\t"
    ensures c as int < 32 && c as int !in {8, 9, 10, 12, 13} ==>
              EscapeChar(c) == "\\u00" + ["0123456789abcdef"[c as int / 16], "0123456789abcdef"[c as int % 16]]
    ensures c as int >= 32 && c != '\"' && c != '\\' ==> EscapeChar(c) == [c]
  {
    if c as int < 32 {
      assert c as int / 16 % 16 == c as int / 16;
    }
  }

  /** A number within 2^-52 of its int field, and within the range of an int, is printed as
      that int, and read back as it; any other one is printed by the C library. */
  lemma NumberWritten(i: int, d: real, dt: DoubleText, rest: string)
    requires -0x8000_0000 <= i < 0x8000_0000 && NumberEnds(rest)
    ensures var close := -1.0 / 4503599627370496.0 <= d - i as real <= 1.0 / 4503599627370496.0;
            if close && -2147483648.0 <= d <= 2147483647.0 then
              && NumberText(i, d, dt) == (if i < 0 then "-" + Digits(-i) else Digits(i))
              && DecNumber(Digits(if i < 0 then -i else i), if i < 0 then -i else i)
              && NumberText(i, d, dt) + rest != ""
              && ParseValue(NumberText(i, d, dt) + rest) == Done(Number(i, i as real), rest)
            else
              NumberText(i, d, dt) == dt(d)
  {
    hide ParseValue, ParseNumber, Digits, DecNumber;
    DecimalParses(i, rest);
    DigitsForm(if i < 0 then -i else i);
    ParseNumberValue(Decimal(i) + rest);
  }
}
