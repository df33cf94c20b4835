/** The printers: text written through a moving pointer into a buffer whose size was
    worked out beforehand. */
module JsonPrinter {
  import opened Basics
  import opened CBuffer
  import opened JsonText
  import opened JsonTree

  // ---- Strings

  /** Is there a two-character escape for it? */
  predicate InShortSet(c: char) {
    c == '\"' || c == '\\' || c == '\U{8}' || c == '\U{C}' || c == '\n' || c == '\r' || c == '\t'
  }

  lemma {:induction false} EscapedAppend(s: string, c: char)
    ensures Escaped(s + [c]) == Escaped(s) + EscapeChar(c)
    ensures |EscapeChar(c)| == (if InShortSet(c) then 2 else if c as int < 32 then 6 else 1)
  {
    if s == "" {
      assert [] + [c] == [c] && [c][1..] == [];
      assert EscapeChar(c) + [] == EscapeChar(c);
    } else {
      assert (s + [c])[1..] == s[1..] + [c];
      EscapedAppend(s[1..], c);
      assert EscapeChar(s[0]) + (Escaped(s[1..]) + EscapeChar(c)) == EscapeChar(s[0]) + Escaped(s[1..]) + EscapeChar(c);
    }
  }

  lemma EscapedEmpty()
    ensures Escaped("") == ""
  {
  }

  lemma {:induction false} EscapedPrefix(s: string, i: nat)
    requires i < |s|
    ensures Escaped(s[..i + 1]) == Escaped(s[..i]) + EscapeChar(s[i])
    ensures |Escaped(s[..i + 1])| <= |Escaped(s)|
    decreases |s| - i
  {
    assert s[..i + 1] == s[..i] + [s[i]];
    EscapedAppend(s[..i], s[i]);
    if i + 1 < |s| {
      EscapedPrefix(s, i + 1);
    } else {
      assert s[..i + 1] == s;
    }
  }

  /** The escape of one character, written out. */
  method PutEscaped(out: array<char>, ptr_: nat, c: char) returns (ptr: nat)
    requires ptr_ + |EscapeChar(c)| < out.Length
    modifies out
    ensures ptr == ptr_ + |EscapeChar(c)| && out[..ptr] == old(out[..ptr_]) + EscapeChar(c)
  {
    ptr := ptr_;
    if c as int > 31 && c != '\"' && c != '\\' {
      ptr := Put(out, ptr, c);
    } else {
      ptr := Put(out, ptr, '\\');
      match c
      case '\\' => ptr := Put(out, ptr, '\\');
      case '\"' => ptr := Put(out, ptr, '\"');
      case '\U{8}' => ptr := Put(out, ptr, 'b');
      case '\U{C}' => ptr := Put(out, ptr, 'f');
      case '\n' => ptr := Put(out, ptr, 'n');
      case '\r' => ptr := Put(out, ptr, 'r');
      case '\t' => ptr := Put(out, ptr, 't');
      case _ =>
        ptr := Copy(out, ptr, ['u', '0', '0', HexDigit(c as int / 16 % 16), HexDigit(c as int % 16)]);
    }
  }

  /** print_string_ptr: the measured length is exactly what is written. */
  method PrintStringPtr(str: string) returns (out: array<char>)
    requires CText(str)
    ensures fresh(out) && Holds(out, StringText(str)) && out.Length == |StringText(str)| + 1
  {
    hide Escaped, EscapeChar;
    EscapedEmpty();
    var len, i := 0, 0;
    while i < |str|
      invariant 0 <= i <= |str| && len == |Escaped(str[..i])|
    {
      EscapedPrefix(str, i);
      EscapedAppend(str[..i], str[i]);
      len := len + 1;
      if InShortSet(str[i]) {
        len := len + 1;
      } else if str[i] as int < 32 {
        len := len + 5;
      }
      i := i + 1;
    }
    assert str[..i] == str;
    out := new char[len + 3];
    var ptr := Put(out, 0, '\"');
    i := 0;
    while i < |str|
      invariant 0 <= i <= |str| && ptr == 1 + |Escaped(str[..i])| <= 1 + len
      invariant out[..ptr] == ['\"'] + Escaped(str[..i])
    {
      EscapedPrefix(str, i);
      ptr := PutEscaped(out, ptr, str[i]);
      i := i + 1;
    }
    assert str[..i] == str;
    ptr := Put(out, ptr, '\"');
    End(out, ptr);
  }

  // ---- Trees

  /** How the C library writes a double: a C string that fits the 64 bytes set aside. */
  ghost predicate CDoubles(dt: DoubleText) {
    forall d: real :: CText(dt(d)) && |dt(d)| < 64
  }

  /** Ints are C ints, strings are C strings. */
  ghost predicate CTree(j: Json)
    decreases j
  {
    match j
    case Number(i, _) => -0x8000_0000 <= i < 0x8000_0000
    case String(t) => CText(t)
    case Array(items) => forall x <- items :: CTree(x)
    case Object(ms) => forall m <- ms :: CMember(m)
    case _ => true
  }

  ghost predicate CMember(m: Member)
    decreases m
  {
    CText(m.name) && CTree(m.value)
  }

  function Ten(k: nat): nat {
    if k == 0 then 1 else 10 * Ten(k - 1)
  }

  lemma {:induction false} DigitsFit(n: nat, k: nat)
    requires k >= 1 && n < Ten(k)
    ensures |Digits(n)| <= k && CText(Digits(n))
  {
    if n >= 10 {
      DigitsFit(n / 10, k - 1);
    }
  }

  /** An int takes at most eleven of the 21 bytes set aside. */
  lemma DecimalFits(i: int)
    requires -0x8000_0000 <= i < 0x8000_0000
    ensures |Decimal(i)| <= 11 && CText(Decimal(i))
  {
    assert Ten(1) == 10 && Ten(2) == 100 && Ten(3) == 1000 && Ten(4) == 10000 && Ten(5) == 100000;
    assert Ten(6) == 1000000 && Ten(7) == 10000000 && Ten(8) == 100000000 && Ten(9) == 1000000000;
    assert Ten(10) == 10000000000;
    DigitsFit(if i < 0 then -i else i, 10);
  }

  lemma {:induction false} EscapedClean(s: string)
    requires CText(s)
    ensures CText(Escaped(s))
  {
    if s != "" {
      EscapedClean(s[1..]);
      assert s[0] != '\0';
      assert CText(EscapeChar(s[0]));
    }
  }

  lemma NameClean(s: string)
    requires CText(s)
    ensures CText(StringText(s))
  {
    hide Escaped;
    EscapedClean(s);
  }

  lemma {:induction false} TabsClean(n: int)
    ensures CText(Tabs(n)) && |Tabs(n)| == (if n < 0 then 0 else n)
  {
    if n > 0 {
      TabsClean(n - 1);
    }
  }

  lemma JoinClean(a: string, b: string)
    requires CText(a) && CText(b)
    ensures CText(a + b)
  {
  }

  /** No printed text has a NUL inside, so its length is what strlen finds. */
  lemma {:induction false} ValueClean(j: Json, depth: nat, fmt: bool, dt: DoubleText)
    requires CTree(j) && CDoubles(dt)
    ensures CText(ValueText(j, depth, fmt, dt))
    decreases j
  {
    match j
    case Number(i, d) =>
      DecimalFits(i);
      DoubleClean(d, dt);
    case String(t) => NameClean(t);
    case Array(items) =>
      if items != [] {
        ItemsClean(items, depth + 1, fmt, dt);
        Wrapped(['['], ItemsText(items, depth + 1, fmt, dt), [']']);
      }
    case Object(ms) => ObjectClean(ms, depth, fmt, dt);
    case _ =>
  }

  lemma {:induction false} ObjectClean(ms: seq<Member>, depth: nat, fmt: bool, dt: DoubleText)
    requires CDoubles(dt) && forall m <- ms :: CMember(m)
    ensures CText(ValueText(Object(ms), depth, fmt, dt))
    decreases ms, 1
  {
    hide ValueText, MembersText, Tabs, CDoubles, CMember;
    ObjectText(ms, depth, fmt, dt);
    var nl, tabs := if fmt then ['\n'] else [], if fmt then Tabs(depth) else [];
    var end := if fmt then ['\n'] + Tabs(depth - 1) else [];
    TabsClean(depth - 1);
    TabsClean(depth);
    MembersClean(ms, depth + 1, fmt, dt);
    var body := MembersText(ms, depth + 1, fmt, dt);
    Wrapped([], ['\n'], Tabs(depth - 1));
    assert [] + ['\n'] + Tabs(depth - 1) == ['\n'] + Tabs(depth - 1);
    assert CText(nl) && CText(tabs) && CText(end) && CText(['{']) && CText(['}']);
    hide CText;
    Wrapped(['{'], end, ['}']);
    Wrapped(['{'], nl, body);
    Wrapped(['{'] + nl + body, tabs, ['}']);
  }

  lemma Wrapped(a: string, b: string, c: string)
    requires CText(a) && CText(b) && CText(c)
    ensures CText(a + b + c)
  {
  }

  lemma DoubleClean(d: real, dt: DoubleText)
    requires CDoubles(dt)
    ensures CText(dt(d)) && |dt(d)| < 64
  {
  }

  lemma {:induction false} ItemsClean(items: seq<Json>, depth: nat, fmt: bool, dt: DoubleText)
    requires CDoubles(dt) && forall x <- items :: CTree(x)
    ensures CText(ItemsText(items, depth, fmt, dt))
    decreases items
  {
    hide CDoubles, CTree, ValueText;
    if items != [] {
      assert CTree(items[0]);
      ValueClean(items[0], depth, fmt, dt);
      ItemsClean(items[1..], depth, fmt, dt);
    }
  }

  lemma {:induction false} MembersClean(ms: seq<Member>, depth: nat, fmt: bool, dt: DoubleText)
    requires CDoubles(dt) && forall m <- ms :: CMember(m)
    ensures CText(MembersText(ms, depth, fmt, dt))
    decreases ms, 0
  {
    if ms != [] {
      assert CMember(ms[0]) && ms[0].value < ms[0];
      ValueClean(ms[0].value, depth, fmt, dt);
      NameClean(ms[0].name);
      TabsClean(depth);
      MembersClean(ms[1..], depth, fmt, dt);
      var tabs, tab, nl := if fmt then Tabs(depth) else [], if fmt then ['\t'] else [], if fmt then ['\n'] else [];
      var name, v := StringText(ms[0].name), ValueText(ms[0].value, depth, fmt, dt);
      var comma := if |ms| > 1 then [','] else [];
      var t := MembersText(ms[1..], depth, fmt, dt);
      assert MembersText(ms, depth, fmt, dt) == (tabs + name + [':'] + tab) + v + comma + nl + t;
      assert CText(tabs) && CText(tab) && CText(nl) && CText(comma) && CText([':']);
      hide MembersText, ValueText, Tabs, StringText, CDoubles, CMember, CText;
      Wrapped(tabs, name, [':']);
      JoinClean(tabs + name + [':'], tab);
      Wrapped(tabs + name + [':'] + tab, v, comma);
      Wrapped((tabs + name + [':'] + tab) + v + comma, nl, t);
    }
  }

  /** The text of the first `i` entries, each but the last with its separator. */
  function Joined(e: seq<string>, i: nat, fmt: bool): string
    requires i <= |e|
  {
    if i == 0 then ""
    else Joined(e, i - 1, fmt) + e[i - 1] + (if i == |e| then [] else if fmt then [',', ' '] else [','])
  }

  /** What the length of the buffer counts for them. */
  function Room(e: seq<string>, fmt: bool): nat {
    if e == [] then 0 else Room(e[..|e| - 1], fmt) + |e[|e| - 1]| + 2 + (if fmt then 1 else 0)
  }

  lemma {:induction false} JoinedFits(e: seq<string>, i: nat, fmt: bool)
    requires i <= |e|
    ensures |Joined(e, i, fmt)| <= Room(e[..i], fmt) && Room(e[..i], fmt) <= Room(e, fmt)
    decreases |e| - i
  {
    JoinedLength(e, i, fmt);
    if i < |e| {
      JoinedFits(e, i + 1, fmt);
      assert e[..i + 1][..i] == e[..i];
    } else {
      assert e[..i] == e;
    }
  }

  lemma {:induction false} JoinedLength(e: seq<string>, i: nat, fmt: bool)
    requires i <= |e|
    ensures |Joined(e, i, fmt)| <= Room(e[..i], fmt)
  {
    if i > 0 {
      JoinedLength(e, i - 1, fmt);
      assert e[..i][..i - 1] == e[..i - 1];
    }
  }

  ghost predicate Texts(e: seq<string>, items: seq<Json>, depth: nat, fmt: bool, dt: DoubleText) {
    |e| <= |items| && forall k :: 0 <= k < |e| ==> e[k] == ValueText(items[k], depth, fmt, dt)
  }

  lemma {:induction false} JoinedItems(e: seq<string>, items: seq<Json>, i: nat, depth: nat, fmt: bool, dt: DoubleText)
    requires Texts(e, items, depth, fmt, dt) && |e| == |items| && i <= |e|
    ensures Joined(e, i, fmt) + ItemsText(items[i..], depth, fmt, dt) == ItemsText(items, depth, fmt, dt)
  {
    hide ValueText;
    if i == 0 {
      assert items[0..] == items;
    } else {
      JoinedItems(e, items, i - 1, depth, fmt, dt);
      assert items[i - 1..][0] == items[i - 1] && items[i - 1..][1..] == items[i..];
      var v := ValueText(items[i - 1], depth, fmt, dt);
      assert e[i - 1] == v;
      var sep := if i == |e| then [] else if fmt then [',', ' '] else [','];
      var t := ItemsText(items[i..], depth, fmt, dt);
      assert ItemsText(items[i - 1..], depth, fmt, dt) == v + sep + t;
      assert Joined(e, i - 1, fmt) + (v + sep + t) == Joined(e, i - 1, fmt) + v + sep + t;
    }
  }

  /** strdup or sprintf of a known text. */
  method NewText(s: string, size: nat) returns (out: array<char>)
    requires |s| < size
    ensures fresh(out) && Holds(out, s)
  {
    out := new char[size];
    var _ := Copy(out, 0, s);
  }

  /** print_value. */
  method PrintValue(item: Json, depth: nat, fmt: bool, dt: DoubleText) returns (out: array<char>)
    requires CTree(item) && CDoubles(dt)
    ensures fresh(out) && Holds(out, ValueText(item, depth, fmt, dt))
    decreases item, 1
  {
    hide CDoubles, StringText;
    match item
    case Null => out := NewText("null", 5);
    case False => out := NewText("false", 6);
    case True => out := NewText("true", 5);
    case Number(i, d) =>
      DecimalFits(i);
      DoubleClean(d, dt);
      if PrintsAsInt(i, d) {
        out := NewText(Decimal(i), 21);
      } else {
        out := NewText(dt(d), 64);
      }
    case String(t) => out := PrintStringPtr(t);
    case Array(items) => out := PrintArray(items, depth, fmt, dt);
    case Object(ms) => out := PrintObject(ms, depth, fmt, dt);
  }

  /** print_array: rendering the entries and adding up the room they need. */
  method ItemEntries(items: seq<Json>, depth: nat, fmt: bool, dt: DoubleText) returns (entries: seq<string>, len: nat)
    requires CDoubles(dt) && forall x <- items :: CTree(x)
    ensures |entries| == |items| && Texts(entries, items, depth, fmt, dt) && len == 5 + Room(entries, fmt)
    decreases items, 0
  {
    hide CDoubles, CTree, ValueText, Room;
    entries, len := [], 5;
    var i := 0;
    RoomEmpty(fmt);
    while i < |items|
      invariant 0 <= i <= |items| && |entries| == i
      invariant Texts(entries, items, depth, fmt, dt) && len == 5 + Room(entries, fmt)
    {
      assert CTree(items[i]);
      var ret := PrintValue(items[i], depth, fmt, dt);
      ValueClean(items[i], depth, fmt, dt);
      var n := StrLen(ret, ValueText(items[i], depth, fmt, dt));
      RoomGrows(entries, ret[..n], fmt);
      entries := entries + [ret[..n]];
      len := len + n + 2 + (if fmt then 1 else 0);
      i := i + 1;
    }
  }

  /** print_array: composing the output within that room. */
  method ComposeArray(entries: seq<string>, fmt: bool, len: nat) returns (out: array<char>)
    requires entries != [] && len == 5 + Room(entries, fmt)
    ensures fresh(out) && Holds(out, ['['] + Joined(entries, |entries|, fmt) + [']'])
  {
    hide Room, Joined;
    out := new char[len];
    var ptr := Put(out, 0, '[');
    End(out, ptr);
    var i := 0;
    JoinedStep(entries, 0, fmt);
    JoinedFits(entries, 0, fmt);
    while i < |entries|
      invariant 0 <= i <= |entries| && ptr == 1 + |Joined(entries, i, fmt)| && ptr + 3 < out.Length
      invariant out[..ptr] == ['['] + Joined(entries, i, fmt)
    {
      JoinedStep(entries, i, fmt);
      JoinedFits(entries, i + 1, fmt);
      ghost var sep := if i + 1 == |entries| then [] else if fmt then [',', ' '] else [','];
      Seam3(['['], Joined(entries, i, fmt), entries[i], sep);
      Seam3(['['], Joined(entries, i, fmt), entries[i], [',']);
      ptr := Copy(out, ptr, entries[i]);
      if i != |entries| - 1 {
        ptr := Put(out, ptr, ',');
        if fmt {
          ptr := Put(out, ptr, ' ');
        }
        End(out, ptr);
      }
      i := i + 1;
    }
    ptr := Put(out, ptr, ']');
    End(out, ptr);
  }

  /** print_array. */
  method PrintArray(items: seq<Json>, depth: nat, fmt: bool, dt: DoubleText) returns (out: array<char>)
    requires CDoubles(dt) && forall x <- items :: CTree(x)
    ensures fresh(out) && Holds(out, ValueText(Array(items), depth, fmt, dt))
    decreases items, 1
  {
    hide CDoubles, CTree, ValueText, ItemsText, Room, Joined;
    ArrayText(items, depth, fmt, dt);
    if items == [] {
      out := NewText("[]", 3);
    } else {
      var entries, len := ItemEntries(items, depth + 1, fmt, dt);
      JoinedItems(entries, items, |items|, depth + 1, fmt, dt);
      assert items[|items|..] == [];
      assert Joined(entries, |items|, fmt) + [] == Joined(entries, |items|, fmt);
      out := ComposeArray(entries, fmt, len);
    }
  }

  lemma ArrayText(items: seq<Json>, depth: nat, fmt: bool, dt: DoubleText)
    ensures ValueText(Array(items), depth, fmt, dt)
         == if items == [] then "[]" else ['['] + ItemsText(items, depth + 1, fmt, dt) + [']']
    ensures ItemsText([], depth, fmt, dt) == [] == ItemsText([], depth + 1, fmt, dt)
  {
  }

  lemma RoomEmpty(fmt: bool)
    ensures Room([], fmt) == 0
  {
  }

  lemma RoomGrows(e: seq<string>, s: string, fmt: bool)
    ensures Room(e + [s], fmt) == Room(e, fmt) + |s| + 2 + (if fmt then 1 else 0)
  {
    assert (e + [s])[..|e|] == e;
  }

  lemma JoinedStep(e: seq<string>, i: nat, fmt: bool)
    requires i <= |e|
    ensures Joined(e, 0, fmt) == ""
    ensures i < |e| ==>
              Joined(e, i + 1, fmt)
              == Joined(e, i, fmt) + e[i] + (if i + 1 == |e| then [] else if fmt then [',', ' '] else [','])
  {
  }

  // ---- Objects

  /** `names[i]` and `entries[i]`. */
  datatype Entry = Entry(name: string, value: string)

  /** One line of the output. */
  function Line(e: seq<Entry>, i: nat, depth: nat, fmt: bool): string
    requires i < |e|
  {
    (if fmt then Tabs(depth) else []) + e[i].name + [':'] + (if fmt then ['\t'] else []) + e[i].value
    + (if i + 1 < |e| then [','] else []) + (if fmt then ['\n'] else [])
  }

  function Lines(e: seq<Entry>, i: nat, depth: nat, fmt: bool): string
    requires i <= |e|
  {
    if i == 0 then "" else Lines(e, i - 1, depth, fmt) + Line(e, i - 1, depth, fmt)
  }

  function LineRoom(e: Entry, depth: nat, fmt: bool): nat {
    |e.value| + |e.name| + 2 + (if fmt then 2 + depth else 0)
  }

  function LinesRoom(e: seq<Entry>, depth: nat, fmt: bool): nat {
    if e == [] then 0 else LinesRoom(e[..|e| - 1], depth, fmt) + LineRoom(e[|e| - 1], depth, fmt)
  }

  lemma LineFits(e: seq<Entry>, i: nat, depth: nat, fmt: bool)
    requires i < |e|
    ensures |Line(e, i, depth, fmt)| <= LineRoom(e[i], depth, fmt)
  {
    TabsClean(depth);
  }

  lemma {:induction false} LinesFit(e: seq<Entry>, i: nat, depth: nat, fmt: bool)
    requires i <= |e|
    ensures |Lines(e, i, depth, fmt)| <= LinesRoom(e[..i], depth, fmt)
  {
    hide Line, LineRoom;
    if i > 0 {
      LinesFit(e, i - 1, depth, fmt);
      LineFits(e, i - 1, depth, fmt);
      assert e[..i][..i - 1] == e[..i - 1];
    }
  }

  lemma {:induction false} RoomOfPrefix(e: seq<Entry>, i: nat, depth: nat, fmt: bool)
    requires i <= |e|
    ensures LinesRoom(e[..i], depth, fmt) <= LinesRoom(e, depth, fmt)
    decreases |e| - i
  {
    if i < |e| {
      RoomOfPrefix(e, i + 1, depth, fmt);
      assert e[..i + 1][..i] == e[..i];
    } else {
      assert e[..i] == e;
    }
  }

  /** What the composing loop knows after `i` entries. */
  lemma LinesStep(e: seq<Entry>, i: nat, depth: nat, fmt: bool)
    requires i <= |e|
    ensures Lines(e, 0, depth, fmt) == ""
    ensures |Lines(e, i, depth, fmt)| <= LinesRoom(e, depth, fmt)
    ensures i < |e| ==> Lines(e, i + 1, depth, fmt) == Lines(e, i, depth, fmt) + Line(e, i, depth, fmt)
    ensures i < |e| ==> |Lines(e, i, depth, fmt)| + |Line(e, i, depth, fmt)| <= LinesRoom(e, depth, fmt)
  {
    hide Line;
    LinesFit(e, i, depth, fmt);
    RoomOfPrefix(e, i, depth, fmt);
    if i < |e| {
      LinesFit(e, i + 1, depth, fmt);
      RoomOfPrefix(e, i + 1, depth, fmt);
    }
  }

  ghost predicate Entries(e: seq<Entry>, ms: seq<Member>, depth: nat, fmt: bool, dt: DoubleText) {
    |e| <= |ms| && forall k :: 0 <= k < |e| ==>
      e[k] == Entry(StringText(ms[k].name), ValueText(ms[k].value, depth, fmt, dt))
  }

  lemma {:induction false} LinesAreMembers(e: seq<Entry>, ms: seq<Member>, i: nat, depth: nat, fmt: bool,
                                           dt: DoubleText)
    requires Entries(e, ms, depth, fmt, dt) && |e| == |ms| && i <= |e|
    ensures Lines(e, i, depth, fmt) + MembersText(ms[i..], depth, fmt, dt) == MembersText(ms, depth, fmt, dt)
  {
    hide ValueText, StringText, Tabs;
    if i == 0 {
      assert ms[0..] == ms;
    } else {
      LinesAreMembers(e, ms, i - 1, depth, fmt, dt);
      var rest := ms[i - 1..];
      assert rest[0] == ms[i - 1] && rest[1..] == ms[i..];
      MemberIsLine(e, ms, i - 1, depth, fmt, dt);
      hide MembersText, Line;
      assert Lines(e, i, depth, fmt) == Lines(e, i - 1, depth, fmt) + Line(e, i - 1, depth, fmt);
      Assoc(Lines(e, i - 1, depth, fmt), Line(e, i - 1, depth, fmt), MembersText(ms[i..], depth, fmt, dt));
    }
  }

  lemma Assoc(a: string, b: string, c: string)
    ensures a + (b + c) == a + b + c
  {
  }

  lemma MemberIsLine(e: seq<Entry>, ms: seq<Member>, i: nat, depth: nat, fmt: bool, dt: DoubleText)
    requires Entries(e, ms, depth, fmt, dt) && |e| == |ms| && i < |e|
    ensures MembersText(ms[i..], depth, fmt, dt) == Line(e, i, depth, fmt) + MembersText(ms[i + 1..], depth, fmt, dt)
  {
    hide ValueText, StringText, Tabs;
    assert ms[i..][0] == ms[i] && ms[i..][1..] == ms[i + 1..];
    assert e[i] == Entry(StringText(ms[i].name), ValueText(ms[i].value, depth, fmt, dt));
  }

  /** Tabs through the moving pointer. */
  method PutTabs(out: array<char>, ptr_: nat, n: int) returns (ptr: nat)
    requires ptr_ + (if n < 0 then 0 else n) < out.Length
    modifies out
    ensures ptr == ptr_ + (if n < 0 then 0 else n)
    ensures out[..ptr] == old(out[..ptr_]) + Tabs(n)
  {
    ptr := ptr_;
    var j := 0;
    TabsClean(n);
    while j < n
      invariant 0 <= j <= (if n < 0 then 0 else n) && ptr == ptr_ + j
      invariant out[..ptr] + Tabs(n - j) == old(out[..ptr_]) + Tabs(n)
    {
      assert out[..ptr] + Tabs(n - j) == (out[..ptr] + ['\t']) + Tabs(n - j - 1);
      ptr := Put(out, ptr, '\t');
      j := j + 1;
    }
    assert out[..ptr] + [] == out[..ptr];
  }

  /** print_object: rendering names and entries and adding up the room they need. */
  method MemberEntries(ms: seq<Member>, depth: nat, fmt: bool, dt: DoubleText) returns (entries: seq<Entry>, len: nat)
    requires CDoubles(dt) && forall m <- ms :: CMember(m)
    ensures |entries| == |ms| && Entries(entries, ms, depth, fmt, dt)
    ensures len == 7 + (if fmt then depth else 0) + LinesRoom(entries, depth, fmt)
    decreases ms, 0
  {
    hide CDoubles, CTree, ValueText, StringText, LinesRoom;
    entries, len := [], 7;
    if fmt {
      len := len + depth;
    }
    var i := 0;
    NoRoom(depth, fmt);
    while i < |ms|
      invariant 0 <= i <= |ms| && |entries| == i && Entries(entries, ms, depth, fmt, dt)
      invariant len == 7 + (if fmt then depth else 0) + LinesRoom(entries, depth, fmt)
    {
      assert CMember(ms[i]) && ms[i].value < ms[i];
      var str := PrintStringPtr(ms[i].name);
      NameClean(ms[i].name);
      var a := StrLen(str, StringText(ms[i].name));
      var ret := PrintValue(ms[i].value, depth, fmt, dt);
      ValueClean(ms[i].value, depth, fmt, dt);
      var b := StrLen(ret, ValueText(ms[i].value, depth, fmt, dt));
      MoreRoom(entries, Entry(str[..a], ret[..b]), depth, fmt);
      entries := entries + [Entry(str[..a], ret[..b])];
      len := len + b + a + 2 + (if fmt then 2 + depth else 0);
      i := i + 1;
    }
  }

  lemma NoRoom(depth: nat, fmt: bool)
    ensures LinesRoom([], depth, fmt) == 0
  {
  }

  lemma MoreRoom(e: seq<Entry>, x: Entry, depth: nat, fmt: bool)
    ensures LinesRoom(e + [x], depth, fmt) == LinesRoom(e, depth, fmt) + LineRoom(x, depth, fmt)
  {
    assert (e + [x])[..|e|] == e;
  }

  lemma LineSeam(o: string, e: seq<Entry>, i: nat, depth: nat, fmt: bool)
    requires i < |e|
    ensures o + Line(e, i, depth, fmt) ==
            var a := o + (if fmt then Tabs(depth) else []) + e[i].name + [':'] + (if fmt then ['\t'] else [])
                   + e[i].value;
            a + (if i + 1 < |e| then [','] else []) + (if fmt then ['\n'] else [])
    ensures |Line(e, i, depth, fmt)|
         == |e[i].name| + |e[i].value| + 1 + (if i + 1 < |e| then 1 else 0) + (if fmt then |Tabs(depth)| + 2 else 0)
  {
  }

  /** One entry of the output. */
  method PutLine(out: array<char>, ptr_: nat, entries: seq<Entry>, i: nat, depth: nat, fmt: bool) returns (ptr: nat)
    requires i < |entries| && ptr_ + |Line(entries, i, depth, fmt)| < out.Length
    modifies out
    ensures ptr == ptr_ + |Line(entries, i, depth, fmt)|
    ensures out[..ptr] == old(out[..ptr_]) + Line(entries, i, depth, fmt)
  {
    hide Tabs, Line;
    TabsClean(depth);
    LineSeam(out[..ptr_], entries, i, depth, fmt);
    ptr := ptr_;
    if fmt {
      ptr := PutTabs(out, ptr, depth);
    }
    ptr := Copy(out, ptr, entries[i].name);
    ptr := Put(out, ptr, ':');
    if fmt {
      ptr := Put(out, ptr, '\t');
    }
    ptr := Copy(out, ptr, entries[i].value);
    if i != |entries| - 1 {
      ptr := Put(out, ptr, ',');
    }
    if fmt {
      ptr := Put(out, ptr, '\n');
    }
    End(out, ptr);
  }

  /** print_object: composing the output within that room; `depth` counts the object. */
  method ComposeObject(entries: seq<Entry>, depth: nat, fmt: bool, len: nat) returns (out: array<char>)
    requires depth >= 1 && len == 7 + (if fmt then depth else 0) + LinesRoom(entries, depth, fmt)
    ensures fresh(out)
    ensures Holds(out, ['{'] + (if fmt then ['\n'] else []) + Lines(entries, |entries|, depth, fmt)
                       + (if fmt then Tabs(depth - 1) else []) + ['}'])
  {
    hide LinesRoom, Lines, Line, Tabs;
    out := new char[len];
    var ptr := Put(out, 0, '{');
    if fmt {
      ptr := Put(out, ptr, '\n');
    }
    End(out, ptr);
    ghost var open := ['{'] + (if fmt then ['\n'] else []);
    assert out[..ptr] == open;
    var i := 0;
    LinesStep(entries, 0, depth, fmt);
    while i < |entries|
      invariant 0 <= i <= |entries| && |open| <= ptr == |open| + |Lines(entries, i, depth, fmt)|
      invariant |Lines(entries, i, depth, fmt)| <= LinesRoom(entries, depth, fmt)
      invariant out[..ptr] == open + Lines(entries, i, depth, fmt)
    {
      LinesStep(entries, i, depth, fmt);
      ptr := PutLine(out, ptr, entries, i, depth, fmt);
      i := i + 1;
    }
    if fmt {
      ptr := PutTabs(out, ptr, depth - 1);
      TabsClean(depth - 1);
    }
    ptr := Put(out, ptr, '}');
    End(out, ptr);
  }

  /** print_object. */
  method PrintObject(ms: seq<Member>, depth: nat, fmt: bool, dt: DoubleText) returns (out: array<char>)
    requires CDoubles(dt) && forall m <- ms :: CMember(m)
    ensures fresh(out) && Holds(out, ValueText(Object(ms), depth, fmt, dt))
    decreases ms, 1
  {
    hide CDoubles, CTree, ValueText, MembersText, Lines, LinesRoom, Tabs;
    ObjectText(ms, depth, fmt, dt);
    if ms == [] {
      TabsClean(depth - 1);
      out := new char[if fmt then depth + 4 else 3];
      var ptr := Put(out, 0, '{');
      if fmt {
        ptr := Put(out, ptr, '\n');
        ptr := PutTabs(out, ptr, depth - 1);
      }
      ptr := Put(out, ptr, '}');
      End(out, ptr);
    } else {
      var entries, len := MemberEntries(ms, depth + 1, fmt, dt);
      LinesAreMembers(entries, ms, |ms|, depth + 1, fmt, dt);
      assert ms[|ms|..] == [];
      assert Lines(entries, |ms|, depth + 1, fmt) + [] == Lines(entries, |ms|, depth + 1, fmt);
      out := ComposeObject(entries, depth + 1, fmt, len);
    }
  }

  lemma ObjectText(ms: seq<Member>, depth: nat, fmt: bool, dt: DoubleText)
    ensures MembersText([], depth + 1, fmt, dt) == []
    ensures ValueText(Object(ms), depth, fmt, dt) ==
            if ms == [] then ['{'] + (if fmt then ['\n'] + Tabs(depth - 1) else []) + ['}']
            else ['{'] + (if fmt then ['\n'] else []) + MembersText(ms, depth + 1, fmt, dt)
                  + (if fmt then Tabs(depth) else []) + ['}']
  {
  }
}
