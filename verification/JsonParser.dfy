/** The parsers: loops over a read pointer, here the text that is left. */
module JsonParser {
  import opened Basics
  import opened CBuffer
  import opened JsonText
  import opened JsonTree

  /** skip. */
  method SkipBlanks(s: string) returns (r: string)
    ensures r == Skip(s)
  {
    r := s;
    while r != "" && r[0] as int <= 32
      invariant Skip(r) == Skip(s)
      decreases |r|
    {
      r := r[1..];
    }
  }

  // ---- Numbers

  /** `do n = n * 10.0 + (*num++ - '0'); while (*num is a digit)`, entered on a digit. */
  method Accumulate(n_: real, s: string) returns (n: real, num: string, count: nat)
    requires IsDigit(Front(s))
    ensures (n, num) == ReadDigits(n_, s) && count == |s| - |num|
  {
    n, num, count := n_ * 10.0 + DigitValue(s[0]) as real, s[1..], 1;
    while IsDigit(Front(num))
      invariant ReadDigits(n, num) == ReadDigits(n_, s) && count == |s| - |num|
      decreases |num|
    {
      n, num, count := n * 10.0 + DigitValue(num[0]) as real, num[1..], count + 1;
    }
  }

  method ReadIntegral(s: string) returns (n: real, num: string)
    ensures (n, num) == Integral(s)
  {
    n, num := 0.0, s;
    if Front(num) == '0' {
      num := num[1..];
    }
    if '1' <= Front(num) <= '9' {
      var count;
      n, num, count := Accumulate(n, num);
    }
  }

  method ReadFraction(n_: real, s: string) returns (n: real, scale: int, num: string)
    ensures (n, scale, num) == Fraction(n_, s)
  {
    n, scale, num := n_, 0, s;
    if Front(num) == '.' && IsDigit(Front(num[1..])) {
      var count;
      n, num, count := Accumulate(n, num[1..]);
      scale := scale - count;
    }
  }

  method ReadExponentPart(s: string) returns (e: int, num: string)
    ensures (e, num) == Exponent(s)
  {
    var subscale, signsubscale := 0, 1;
    num := s;
    if Front(num) == 'e' || Front(num) == 'E' {
      num := num[1..];
      if Front(num) == '+' {
        num := num[1..];
      } else if Front(num) == '-' {
        signsubscale, num := -1, num[1..];
      }
      ghost var start := num;
      while IsDigit(Front(num))
        invariant ReadExponent(subscale, num) == ReadExponent(0, start)
        decreases |num|
      {
        subscale, num := subscale * 10 + DigitValue(num[0]), num[1..];
      }
    }
    e := subscale * signsubscale;
  }

  /** parse_number. */
  method ReadNumber(s: string) returns (r: Parsed<Json>)
    requires s != "" && (s[0] == '-' || IsDigit(s[0]))
    ensures r == ParseNumber(s)
  {
    hide Integral, Fraction, Exponent, Scaled;
    var sign, num := 1.0, s;
    if Front(num) == '-' {
      sign, num := -1.0, num[1..];
    }
    var n, s1 := ReadIntegral(num);
    assert (n, s1) == Integral(if s[0] == '-' then s[1..] else s);
    var m, scale, s2 := ReadFraction(n, s1);
    var e, s3 := ReadExponentPart(s2);
    var d := Scaled(sign, m, scale + e);
    r := if NumberDefined(e, d) then Done(Number(Truncate(d), d), s3) else Wild;
  }

  // ---- Strings

  /** The loop that measures a string: characters, an escape counting as one; None when
      it runs past the end of the text. */
  function Measure(s: string): Option<nat>
    decreases |s|
  {
    if s == "" || s[0] == '\"' then Some(0)
    else if s[0] != '\\' then More(Measure(s[1..]))
    else if |s| < 2 then None
    else More(Measure(s[2..]))
  }

  function More(o: Option<nat>): Option<nat> {
    match o
    case None => None
    case Some(n) => Some(n + 1)
  }

  /** The measure covers what one character or escape gives, and the rest. */
  ghost predicate Covers(s: string, got: string, rest: string) {
    match Measure(rest)
    case None => Measure(s).None?
    case Some(n) => Measure(s).Some? && Measure(s).value >= n + |got|
  }

  lemma MeasureStep(s: string)
    requires s != "" && s[0] != '\"'
    ensures var first := if s[0] == '\\' then ParseEscape(s[1..]) else Done([s[0]], s[1..]);
            first.Done? ==> Covers(s, first.value, first.rest)
  {
    if s[0] == '\\' && |s| > 1 {
      assert s[1..][1..] == s[2..];
      if s[1] == 'u' {
        MeasureUnicode(s);
      }
    }
  }

  lemma MeasureOne(s: string)
    requires s != "" && s[0] != '\"' && s[0] != '\\'
    ensures Measure(s) == More(Measure(s[1..]))
  {
  }

  lemma MeasureFour(s: string)
    requires Hex4(s).Some?
    ensures Measure(s) == More(More(More(More(Measure(s[4..])))))
  {
    hide Measure, More;
    assert s[1..][0] == s[1] && s[2..][0] == s[2] && s[3..][0] == s[3];
    assert s[1..][1..] == s[2..] && s[2..][1..] == s[3..] && s[3..][1..] == s[4..];
    MeasureOne(s);
    MeasureOne(s[1..]);
    MeasureOne(s[2..]);
    MeasureOne(s[3..]);
  }

  lemma MeasureUnicode(s: string)
    requires |s| >= 2 && s[0] == '\\' && s[1] == 'u'
    ensures var r := ParseUnicode(s[2..]);
            r.Done? ==> Covers(s, r.value, r.rest)
  {
    hide Hex4;
    var r := ParseUnicode(s[2..]);
    if r.Done? {
      MeasureFour(s[2..]);
      var t := s[2..][4..];
      if r.rest != t {
        assert t[0] == '\\' && t[1] == 'u' by { assert t[..2] == ['\\', 'u']; }
        MeasureFour(t[2..]);
        assert t[2..][4..] == t[6..];
      }
    }
  }

  /** What the measuring loop finds is enough for the text that comes out. */
  lemma {:induction false} MeasureEnough(s: string)
    ensures ParseChars(s).Done? ==> Measure(s).Some? && |ParseChars(s).value| <= Measure(s).value
    decreases |s|
  {
    if s != "" && s[0] != '\"' {
      var first := if s[0] == '\\' then ParseEscape(s[1..]) else Done([s[0]], s[1..]);
      if first.Done? {
        MeasureStep(s);
        MeasureEnough(first.rest);
      }
    }
  }

  lemma {:induction false} CharsNeverFail(s: string)
    ensures ParseChars(s) != Fail
    decreases |s|
  {
    if s != "" && s[0] != '\"' {
      var first := if s[0] == '\\' then ParseEscape(s[1..]) else Done([s[0]], s[1..]);
      if first.Done? {
        CharsNeverFail(first.rest);
      }
    }
  }

  function Plus(o: Option<nat>, n: nat): Option<nat> {
    match o
    case None => None
    case Some(m) => Some(m + n)
  }

  /** The measuring loop. */
  method MeasureString(s: string) returns (len: Option<nat>)
    ensures len == Measure(s)
  {
    var ptr, n := s, 0;
    while Front(ptr) != '\"' && ptr != ""
      invariant Plus(Measure(ptr), n) == Measure(s)
      decreases |ptr|
    {
      n := n + 1;
      if ptr[0] == '\\' {
        if |ptr| == 1 {
          return None;
        }
        ptr := ptr[1..];
      }
      ptr := ptr[1..];
    }
    len := Some(n);
  }

  /** `((uc | 0x80) & 0xBF)` */
  function Tail(uc: nat): char {
    (0x80 + uc % 0x40) as char
  }

  /** `uc | firstByteMark[len]` */
  function Lead(len: nat, uc: nat): char
    requires uc < 0x80
  {
    ((if len == 1 then 0 else if len == 2 then 0xC0 else if len == 3 then 0xE0 else 0xF0) + uc) as char
  }

  /** Each byte by repeated division. */
  lemma Utf8Bytes(uc: nat)
    requires uc < 0x11_0000
    ensures var u2 := uc / 0x40;
            var u3 := u2 / 0x40;
            var u4 := u3 / 0x40;
            if uc < 0x80 then Utf8(uc) == [Lead(1, uc)]
            else if uc < 0x800 then u2 < 0x80 && Utf8(uc) == [Lead(2, u2), Tail(uc)]
            else if uc < 0x1_0000 then u3 < 0x80 && Utf8(uc) == [Lead(3, u3), Tail(u2), Tail(uc)]
            else u4 < 0x80 && Utf8(uc) == [Lead(4, u4), Tail(u3), Tail(u2), Tail(uc)]
  {
    assert uc / 0x40 / 0x40 == uc / 0x1000 && uc / 0x1000 / 0x40 == uc / 0x4_0000;
  }

  /** The bytes of a code point, last one first: the loop-free fall-through of the code. */
  method PutUtf8(out: array<char>, ptr: nat, uc_: nat) returns (next: nat)
    requires uc_ < 0x11_0000 && ptr + |Utf8(uc_)| <= out.Length
    modifies out
    ensures next == ptr + |Utf8(uc_)| && out[..next] == old(out[..ptr]) + Utf8(uc_)
  {
    var uc, len := uc_, 4;
    if uc < 0x80 {
      len := 1;
    } else if uc < 0x800 {
      len := 2;
    } else if uc < 0x1_0000 {
      len := 3;
    }
    Utf8Bytes(uc_);
    hide Utf8, Tail, Lead;
    next := ptr + len;
    var at := next;
    if len >= 4 {
      at := PutBefore(out, at, Tail(uc), next);
      uc := uc / 0x40;
    }
    if len >= 3 {
      at := PutBefore(out, at, Tail(uc), next);
      uc := uc / 0x40;
    }
    if len >= 2 {
      at := PutBefore(out, at, Tail(uc), next);
      uc := uc / 0x40;
    }
    at := PutBefore(out, at, Lead(len, uc), next);
    assert out[ptr..next] == Utf8(uc_);
    assert out[..next] == out[..ptr] + out[ptr..next];
  }

  /** The `\u` case: what it stands for goes into the buffer. */
  method ReadUnicode(out: array<char>, ptr2_: nat, s: string) returns (ok: bool, ptr2: nat, ptr: string)
    requires ParseUnicode(s).Done? ==> ptr2_ + |ParseUnicode(s).value| <= out.Length
    requires ptr2_ <= out.Length
    modifies out
    ensures ok <==> ParseUnicode(s).Done?
    ensures ok ==> ParseUnicode(s).rest == ptr && ptr2 == ptr2_ + |ParseUnicode(s).value| <= out.Length
    ensures ok ==> out[..ptr2] == old(out[..ptr2_]) + ParseUnicode(s).value
  {
    hide Utf8, Hex4;
    ok, ptr2, ptr := true, ptr2_, s;
    var h := Hex4(s);
    if h == None {
      return false, ptr2, ptr;
    }
    var uc: nat := h.value;
    ptr := s[4..];
    if (0xDC00 <= uc <= 0xDFFF) || uc == 0 {
      return;
    }
    if 0xD800 <= uc <= 0xDBFF {
      if Front(ptr) != '\\' || Front(ptr[1..]) != 'u' {
        return;
      }
      assert ptr[..2] == ['\\', 'u'];
      var h2 := Hex4(ptr[2..]);
      if h2 == None {
        return false, ptr2, ptr;
      }
      ptr := ptr[6..];
      if h2.value < 0xDC00 || h2.value > 0xDFFF {
        return;
      }
      uc := 0x10000 + uc % 0x400 * 0x400 + h2.value % 0x400;
    }
    ptr2 := PutUtf8(out, ptr2, uc);
  }

  /** What follows a backslash. */
  method ReadEscape(out: array<char>, ptr2_: nat, s: string) returns (ok: bool, ptr2: nat, ptr: string)
    requires ParseEscape(s).Done? ==> ptr2_ + |ParseEscape(s).value| <= out.Length
    requires ptr2_ <= out.Length
    modifies out
    ensures ok <==> ParseEscape(s).Done?
    ensures ok ==> ParseEscape(s).rest == ptr && ptr2 == ptr2_ + |ParseEscape(s).value| <= out.Length
    ensures ok ==> out[..ptr2] == old(out[..ptr2_]) + ParseEscape(s).value
  {
    hide ParseUnicode;
    ok, ptr2, ptr := true, ptr2_, s;
    if s == "" {
      return false, ptr2, ptr;
    }
    ptr := s[1..];
    match s[0]
    case 'b' => ptr2 := Put(out, ptr2, '\U{8}');
    case 'f' => ptr2 := Put(out, ptr2, '\U{C}');
    case 'n' => ptr2 := Put(out, ptr2, '\n');
    case 'r' => ptr2 := Put(out, ptr2, '\r');
    case 't' => ptr2 := Put(out, ptr2, '\t');
    case 'u' => ok, ptr2, ptr := ReadUnicode(out, ptr2, ptr);
    case _ => ptr2 := Put(out, ptr2, s[0]);
  }

  function After(c: string, r: Parsed<string>): Parsed<string> {
    match r
    case Done(cs, rest) => Done(c + cs, rest)
    case other => other
  }

  /** One round of the loop that copies a string. */
  lemma CharsStep(s: string)
    requires s != "" && s[0] != '\"'
    ensures var first := if s[0] == '\\' then ParseEscape(s[1..]) else Done([s[0]], s[1..]);
            ParseChars(s) == if first.Done? then After(first.value, ParseChars(first.rest)) else Wild
  {
    if s[0] == '\\' && |s| > 1 {
      assert ParseEscape(s[1..]) != Fail;
    }
  }

  lemma AfterTwice(a: string, b: string, r: Parsed<string>)
    ensures After(a, After(b, r)) == After(a + b, r)
  {
    assert r.Done? ==> a + (b + r.value) == a + b + r.value;
  }

  lemma CharsEnd(s: string)
    requires s == "" || s[0] == '\"'
    ensures ParseChars(s) == Done("", if s == "" then "" else s[1..]) && Measure(s) == Some(0)
  {
  }

  /** parse_string: measured first, then copied into a buffer of that size. */
  method ReadString(s: string) returns (r: Parsed<string>)
    ensures r == ParseString(s)
  {
    hide ParseChars, Measure, ParseEscape, Covers;
    if Front(s) != '\"' {
      return Fail;
    }
    CharsNeverFail(s[1..]);
    MeasureEnough(s[1..]);
    var len := MeasureString(s[1..]);
    if len == None {
      return Wild;
    }
    var out := new char[len.value + 1];
    var ptr, ptr2: nat := s[1..], 0;
    assert out[..0] == [];
    AfterNothing(ParseChars(ptr));
    while Front(ptr) != '\"' && ptr != ""
      invariant ptr2 < out.Length
      invariant After(out[..ptr2], ParseChars(ptr)) == ParseChars(s[1..])
      invariant Measure(ptr).Some? && ptr2 + Measure(ptr).value < out.Length
      decreases |ptr|
    {
      CharsStep(ptr);
      MeasureStep(ptr);
      ghost var was := out[..ptr2];
      ghost var first := if ptr[0] == '\\' then ParseEscape(ptr[1..]) else Done([ptr[0]], ptr[1..]);
      if first.Done? {
        CoversRoom(ptr, first.value, first.rest);
        AfterTwice(was, first.value, ParseChars(first.rest));
      }
      if ptr[0] != '\\' {
        ptr2 := Put(out, ptr2, ptr[0]);
        ptr := ptr[1..];
      } else {
        var ok;
        ok, ptr2, ptr := ReadEscape(out, ptr2, ptr[1..]);
        if !ok {
          return Wild;
        }
      }
    }
    CharsEnd(ptr);
    End(out, ptr2);
    assert out[..ptr2] + "" == out[..ptr2];
    r := Done(out[..ptr2], if Front(ptr) == '\"' then ptr[1..] else ptr);
  }

  lemma AfterNothing(r: Parsed<string>)
    ensures After([], r) == r
  {
    assert r.Done? ==> [] + r.value == r.value;
  }

  lemma CoversRoom(s: string, got: string, rest: string)
    requires Covers(s, got, rest) && Measure(s).Some?
    ensures Measure(rest).Some? && Measure(s).value >= Measure(rest).value + |got|
  {
  }

  // ---- Values

  function Before<T>(a: seq<T>, r: Parsed<seq<T>>): Parsed<seq<T>> {
    match r
    case Done(b, rest) => Done(a + b, rest)
    case other => other
  }

  /** What follows a value of an array, blanks skipped. */
  function ItemsTail(s: string): Parsed<seq<Json>> {
    if Front(s) == ',' then ParseItems(Skip(s[1..]))
    else if Front(s) == ']' then Done([], s[1..])
    else Fail
  }

  lemma ItemsSplit(s: string)
    ensures match ParseValue(s)
            case Done(v, t) => ParseItems(s) == Before([v], ItemsTail(Skip(t)))
            case Fail => ParseItems(s) == Fail
            case Wild => ParseItems(s) == Wild
  {
    hide ParseValue;
    assert forall v: Json :: [v] + [] == [v];
  }

  /** What follows a member of an object, blanks skipped. */
  function MembersTail(s: string): Parsed<seq<Member>> {
    if Front(s) == ',' then ParseMembers(Skip(s[1..]))
    else if Front(s) == '}' then Done([], s[1..])
    else Fail
  }

  /** One member and the text after it, blanks skipped. */
  function OneMember(s: string): (r: Parsed<Member>)
    ensures r.Done? ==> |r.rest| < |s|
  {
    match ParseString(s)
    case Done(name, t) => (
      var u := Skip(t);
      if Front(u) != ':' then Fail
      else match ParseValue(Skip(u[1..]))
        case Done(v, w) => Done(Member(name, v), Skip(w))
        case Fail => Fail
        case Wild => Wild)
    case Fail => Fail
    case Wild => Wild
  }

  lemma MembersSplit(s: string)
    ensures match OneMember(s)
            case Done(m, t) => ParseMembers(s) == Before([m], MembersTail(t))
            case Fail => ParseMembers(s) == Fail
            case Wild => ParseMembers(s) == Wild
  {
    hide ParseValue, ParseString;
    assert forall m: Member :: [m] + [] == [m];
  }

  lemma BeforeTwice<T>(a: seq<T>, b: seq<T>, r: Parsed<seq<T>>)
    ensures Before(a, Before(b, r)) == Before(a + b, r)
  {
    assert r.Done? ==> a + (b + r.value) == a + b + r.value;
  }

  lemma BeforeNone<T>(a: seq<T>)
    ensures a + [] == a
  {
  }

  /** parse_value. */
  method ReadValue(s: string) returns (r: Parsed<Json>)
    ensures r == ParseValue(s)
    decreases |s|, 1
  {
    hide ParseString, ParseNumber, ParseItems, ParseMembers;
    if StartsWith(s, "null") {
      return Done(Null, s[4..]);
    }
    if StartsWith(s, "false") {
      return Done(False, s[5..]);
    }
    if StartsWith(s, "true") {
      return Done(True, s[4..]);
    }
    if Front(s) == '\"' {
      var t := ReadString(s);
      r := match t case Done(text, rest) => Done(String(text), rest) case Fail => Fail case Wild => Wild;
    } else if Front(s) == '-' || IsDigit(Front(s)) {
      r := ReadNumber(s);
    } else if Front(s) == '[' {
      r := ReadArray(s);
    } else if Front(s) == '{' {
      r := ReadObject(s);
    } else {
      r := Fail;
    }
  }

  /** parse_array after its opening bracket and the test for an empty array. */
  method ReadItems(start: string) returns (r: Parsed<seq<Json>>)
    ensures r == ParseItems(start)
    decreases |start|, 2
  {
    hide ParseValue, ParseItems;
    ItemsSplit(start);
    var child := ReadValue(start);
    match child
    case Fail => return Fail;
    case Wild => return Wild;
    case Done(first, rest) =>
      var items := [first];
      var value := SkipBlanks(rest);
      while Front(value) == ','
        invariant |value| < |start| && ParseItems(start) == Before(items, ItemsTail(value))
        decreases |value|
      {
        var from := SkipBlanks(value[1..]);
        ItemsSplit(from);
        var next := ReadValue(from);
        match next
        case Fail => return Fail;
        case Wild => return Wild;
        case Done(v, t) =>
          BeforeTwice(items, [v], ItemsTail(Skip(t)));
          items := items + [v];
          value := SkipBlanks(t);
      }
      BeforeNone(items);
      if Front(value) == ']' {
        r := Done(items, value[1..]);
      } else {
        r := Fail;
      }
  }

  /** parse_array. */
  method ReadArray(s: string) returns (r: Parsed<Json>)
    requires s != "" && s[0] == '['
    ensures r == ParseValue(s)
    decreases |s|, 0
  {
    hide ParseItems, ParseMembers, ParseString, ParseNumber;
    var value := SkipBlanks(s[1..]);
    if Front(value) == ']' {
      return Done(Array([]), value[1..]);
    }
    var items := ReadItems(value);
    r := match items case Done(vs, rest) => Done(Array(vs), rest) case Fail => Fail case Wild => Wild;
  }

  /** The name, the colon and the value of one member. */
  method ReadMember(s: string) returns (r: Parsed<Member>)
    ensures r == OneMember(s)
    decreases |s|, 2
  {
    hide ParseValue, ParseString;
    var name := ReadString(s);
    match name
    case Fail => return Fail;
    case Wild => return Wild;
    case Done(text, t) =>
      var value := SkipBlanks(t);
      if Front(value) != ':' {
        return Fail;
      }
      var from := SkipBlanks(value[1..]);
      var v := ReadValue(from);
      match v
      case Fail => r := Fail;
      case Wild => r := Wild;
      case Done(j, w) =>
        var rest := SkipBlanks(w);
        r := Done(Member(text, j), rest);
  }

  /** parse_object after its opening brace and the test for an empty object. */
  method ReadMembers(start: string) returns (r: Parsed<seq<Member>>)
    ensures r == ParseMembers(start)
    decreases |start|, 3
  {
    hide OneMember, ParseMembers;
    MembersSplit(start);
    var child := ReadMember(start);
    match child
    case Fail => return Fail;
    case Wild => return Wild;
    case Done(first, rest) =>
      var members, value := [first], rest;
      while Front(value) == ','
        invariant |value| < |start| && ParseMembers(start) == Before(members, MembersTail(value))
        decreases |value|
      {
        var from := SkipBlanks(value[1..]);
        MembersSplit(from);
        var next := ReadMember(from);
        match next
        case Fail => return Fail;
        case Wild => return Wild;
        case Done(m, t) =>
          BeforeTwice(members, [m], MembersTail(t));
          members := members + [m];
          value := t;
      }
      BeforeNone(members);
      if Front(value) == '}' {
        r := Done(members, value[1..]);
      } else {
        r := Fail;
      }
  }

  /** parse_object. */
  method ReadObject(s: string) returns (r: Parsed<Json>)
    requires s != "" && s[0] == '{'
    ensures r == ParseValue(s)
    decreases |s|, 0
  {
    hide ParseItems, ParseMembers, ParseString, ParseNumber;
    var value := SkipBlanks(s[1..]);
    if Front(value) == '}' {
      return Done(Object([]), value[1..]);
    }
    var members := ReadMembers(value);
    r := match members case Done(ms, rest) => Done(Object(ms), rest) case Fail => Fail case Wild => Wild;
  }

  /** pc_JSON_ParseWithOpts. */
  method ReadWithOpts(s: string, requireNullTerminated: bool) returns (r: Parsed<Json>)
    ensures r == ParseWithOpts(s, requireNullTerminated)
  {
    hide ParseValue;
    var from := SkipBlanks(s);
    r := ReadValue(from);
    if r.Done? && requireNullTerminated {
      var end := SkipBlanks(r.rest);
      if end != "" {
        return Fail;
      }
      r := Done(r.value, end);
    }
  }
}
