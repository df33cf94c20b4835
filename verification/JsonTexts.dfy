/** Whole JSON texts: the parser takes exactly the texts described here, each as the tree it
    writes, and every text of RFC 8259 is among them. */
module JsonTexts {
  import opened JsonGrammar
  import opened JsonRoundTrip
  import opened JsonText
  import opened JsonTree

  // ---- Texts and their trees

  /** A JSON value as it is written, blanks included. */
  datatype Form =
    | Word(j: Json)
    | Num(n: Numeral, v: nat, x: nat, d: real)
    | Str(pieces: seq<Piece>, closed: bool)
    | Arr(gap: string, slots: seq<Slot>)
    | Obj(gap: string, entries: seq<Entry>)

  datatype Slot = Slot(before: string, form: Form, after: string)

  datatype Entry = Entry(before: string, name: seq<Piece>, after: string, slot: Slot)

  predicate Blank(s: string) {
    forall i :: 0 <= i < |s| ==> s[i] as int <= 32
  }

  function FormText(f: Form): string
    decreases f
  {
    match f
    case Word(j) => if j.Null? then "null" else if j.False? then "false" else "true"
    case Num(n, _, _, _) => NumeralText(n)
    case Str(ps, closed) => QuotedText(ps, closed)
    case Arr(gap, slots) => ['['] + (if slots == [] then gap else SlotsText(slots)) + [']']
    case Obj(gap, es) => ['{'] + (if es == [] then gap else EntriesText(es)) + ['}']
  }

  function SlotsText(slots: seq<Slot>): string
    decreases slots
  {
    if slots == [] then ""
    else SlotText(slots[0]) + if |slots| == 1 then "" else [','] + SlotsText(slots[1..])
  }

  function SlotText(s: Slot): string
    decreases s
  {
    s.before + (FormText(s.form) + s.after)
  }

  function EntriesText(es: seq<Entry>): string
    decreases es
  {
    if es == [] then ""
    else EntryText(es[0]) + if |es| == 1 then "" else [','] + EntriesText(es[1..])
  }

  function EntryText(e: Entry): string
    decreases e
  {
    e.before + (QuotedText(e.name, true) + (e.after + ([':'] + SlotText(e.slot))))
  }

  /** The tree that is written. */
  function Tree(f: Form): Json
    decreases f
  {
    match f
    case Word(j) => j
    case Num(_, _, _, d) => Number(Truncate(d), d)
    case Str(ps, _) => String(Bytes(ps))
    case Arr(_, slots) => Array(Trees(slots))
    case Obj(_, es) => Object(Members(es))
  }

  function Trees(slots: seq<Slot>): seq<Json>
    decreases slots
  {
    if slots == [] then [] else [Tree(slots[0].form)] + Trees(slots[1..])
  }

  function Members(es: seq<Entry>): seq<Member>
    decreases es
  {
    if es == [] then [] else [Member(Bytes(es[0].name), Tree(es[0].slot.form))] + Members(es[1..])
  }

  // ---- Legal texts, and texts the parser takes

  /** By RFC 8259, where numbers fit a C int. */
  ghost predicate LegalForm(f: Form)
    decreases f
  {
    match f
    case Word(j) => j.Null? || j.False? || j.True?
    case Num(n, v, x, d) => LegalNumeral(n, v, x) && Denotes(n, v, x, d) && x < 0x8000_0000 && FitsInt(d)
    case Str(ps, closed) => closed && forall p <- ps :: Legal(p)
    case Arr(gap, slots) => Blank(gap) && forall s <- slots :: LegalSlot(s)
    case Obj(gap, es) => Blank(gap) && forall e <- es :: LegalEntry(e)
  }

  ghost predicate LegalSlot(s: Slot)
    decreases s
  {
    Blank(s.before) && LegalForm(s.form) && Blank(s.after)
  }

  ghost predicate LegalEntry(e: Entry)
    decreases e
  {
    Blank(e.before) && (forall p <- e.name :: Legal(p)) && Blank(e.after) && LegalSlot(e.slot)
  }

  /** In front of `rest`. */
  ghost predicate Accepts(f: Form, rest: string)
    decreases f, 2
  {
    match f
    case Word(j) => j.Null? || j.False? || j.True?
    case Num(n, v, x, d) => AcceptsNumeral(n, v, x, rest) && Denotes(n, v, x, d) && x < 0x8000_0000 && FitsInt(d)
    case Str(ps, closed) => AcceptsString(ps, closed, rest)
    case Arr(gap, slots) => Blank(gap) && AcceptsSlots(slots, [']'] + rest)
    case Obj(gap, es) => Blank(gap) && AcceptsEntries(es, ['}'] + rest)
  }

  ghost predicate AcceptsSlot(s: Slot, rest: string)
    decreases s, 3
  {
    Blank(s.before) && Blank(s.after) && Accepts(s.form, s.after + rest)
  }

  /** What stands behind the first of them. */
  function Behind(slots: seq<Slot>, rest: string): string
    requires slots != []
  {
    if |slots| == 1 then rest else [','] + (SlotsText(slots[1..]) + rest)
  }

  ghost predicate AcceptsSlots(slots: seq<Slot>, rest: string)
    decreases slots, 0
  {
    slots != [] ==> AcceptsSlot(slots[0], Behind(slots, rest)) && AcceptsSlots(slots[1..], rest)
  }

  function BehindEntry(es: seq<Entry>, rest: string): string
    requires es != []
  {
    if |es| == 1 then rest else [','] + (EntriesText(es[1..]) + rest)
  }

  ghost predicate AcceptsEntry(e: Entry, rest: string)
    decreases e, 4
  {
    && Blank(e.before) && Blank(e.after) && AcceptsSlot(e.slot, rest)
    && AcceptsString(e.name, true, e.after + ([':'] + (SlotText(e.slot) + rest)))
  }

  ghost predicate AcceptsEntries(es: seq<Entry>, rest: string)
    decreases es, 0
  {
    es != [] ==> AcceptsEntry(es[0], BehindEntry(es, rest)) && AcceptsEntries(es[1..], rest)
  }

  // ---- Blanks and first characters

  lemma {:induction false} BlankSkips(b: string, t: string)
    requires Blank(b)
    ensures Skip(b + t) == Skip(t)
    ensures NumberEnds(t) ==> NumberEnds(b + t)
  {
    if b == "" {
      assert b + t == t;
    } else {
      assert (b + t)[1..] == b[1..] + t && (b + t)[0] == b[0];
      BlankSkips(b[1..], t);
    }
  }

  lemma {:induction false} SkipCut(s: string) returns (b: string)
    ensures Blank(b) && s == b + Skip(s) && Skip(Skip(s)) == Skip(s)
  {
    if s != "" && s[0] as int <= 32 {
      var c := SkipCut(s[1..]);
      b := [s[0]] + c;
      assert s == [s[0]] + s[1..];
    } else {
      b := "";
    }
  }

  /** No blank and no bracket starts a value. */
  lemma FormStarts(f: Form, t: string)
    requires Accepts(f, t)
    ensures var s := FormText(f) + t;
            s != "" && s[0] as int > 32 && s[0] != ']' && s[0] != '}' && Skip(s) == s
  {
    hide SlotsText, EntriesText, Texts, Denotes, FitsInt, PowerText, AcceptsNumeral, AcceptsString, AcceptsSlots;
    hide AcceptsEntries, NumeralText;
    match f
    case Num(n, v, x, d) => NumberReads(n, v, x, d, t);
    case Str(ps, closed) => StringReads(ps, closed, t);
    case _ => assert (FormText(f) + t)[0] == FormText(f)[0];
  }

  lemma AfterValue(mark: char, t: string)
    requires mark == ',' || mark == ']' || mark == '}'
    ensures NumberEnds([mark] + t) && Skip([mark] + t) == [mark] + t && ([mark] + t)[1..] == t
  {
  }

  lemma Inside(open: char, inner: string, close: char, rest: string)
    ensures var s := [open] + inner + [close] + rest; s[0] == open && s[1..] == inner + ([close] + rest)
  {
  }

  lemma EmptyInside(gap: string, close: char, rest: string)
    requires Blank(gap) && close as int > 32
    ensures var t := Skip(gap + ([close] + rest)); Front(t) == close && t[1..] == rest
  {
    BlankSkips(gap, [close] + rest);
    assert ([close] + rest)[1..] == rest;
  }

  lemma ColonStays(t: string)
    ensures Skip([':'] + t) == [':'] + t && ([':'] + t)[1..] == t && Front([':'] + t) == ':'
  {
  }

  // ---- Legal texts are taken

  lemma {:induction false} LegalAccepts(f: Form, rest: string)
    requires LegalForm(f) && (f.Num? ==> NumberEnds(rest))
    ensures Accepts(f, rest)
    decreases f, 1
  {
    hide LegalNumeral, AcceptsNumeral, Denotes, FitsInt, Legal, AllAccepted, LegalSlot, LegalEntry, AcceptsSlots;
    hide AcceptsEntries, NumberEnds;
    match f
    case Num(n, v, x, d) => LegalNumeralAccepted(n, v, x, rest);
    case Str(ps, _) => LegalAccepted(ps, ['\"'] + rest);
    case Arr(_, slots) =>
      AfterValue(']', rest);
      LegalSlotsAccepted(slots, [']'] + rest);
    case Obj(_, es) =>
      AfterValue('}', rest);
      LegalEntriesAccepted(es, ['}'] + rest);
    case _ =>
  }

  lemma {:induction false} LegalSlotAccepted(s: Slot, rest: string)
    requires LegalSlot(s) && NumberEnds(rest)
    ensures AcceptsSlot(s, rest)
    decreases s, 2
  {
    hide LegalForm, Accepts, Blank, NumberEnds;
    BlankSkips(s.after, rest);
    LegalAccepts(s.form, s.after + rest);
  }

  lemma {:induction false} LegalSlotsAccepted(slots: seq<Slot>, rest: string)
    requires (forall s <- slots :: LegalSlot(s)) && NumberEnds(rest)
    ensures AcceptsSlots(slots, rest)
    decreases slots, 0
  {
    hide LegalSlot, AcceptsSlot, SlotsText, NumberEnds;
    if slots != [] {
      AfterValue(',', SlotsText(slots[1..]) + rest);
      LegalSlotAccepted(slots[0], Behind(slots, rest));
      LegalSlotsAccepted(slots[1..], rest);
    }
  }

  lemma {:induction false} LegalEntriesAccepted(es: seq<Entry>, rest: string)
    requires (forall e <- es :: LegalEntry(e)) && NumberEnds(rest)
    ensures AcceptsEntries(es, rest)
    decreases es, 0
  {
    hide LegalSlot, AcceptsSlot, EntriesText, SlotText, NumberEnds, AllAccepted, Legal;
    if es != [] {
      var e, t := es[0], BehindEntry(es, rest);
      AfterValue(',', EntriesText(es[1..]) + rest);
      assert LegalEntry(e);
      LegalAccepted(e.name, ['\"'] + (e.after + ([':'] + (SlotText(e.slot) + t))));
      LegalSlotAccepted(e.slot, t);
      LegalEntriesAccepted(es[1..], rest);
    }
  }

  // ---- What is described is read

  /** Every text of a value is read as the tree it writes. */
  lemma {:induction false} FormParses(f: Form, rest: string)
    requires Accepts(f, rest)
    ensures ParseValue(FormText(f) + rest) == Done(Tree(f), rest)
    decreases f, 1
  {
    hide ParseValue, ParseString, ParseItems, ParseMembers, ParseNumber, SlotsText, EntriesText, NumeralText;
    hide QuotedText, AcceptsNumeral, Denotes, AcceptsString, AcceptsSlots, AcceptsEntries, Truncate, FitsInt, Skip;
    var s := FormText(f) + rest;
    match f
    case Word(j) =>
      ParseLiterals(rest);
    case Num(n, v, x, d) =>
      NumberReads(n, v, x, d, rest);
      ParseNumberValue(s);
    case Str(ps, closed) =>
      StringReads(ps, closed, rest);
      ParseStringValue(s, Bytes(ps), rest);
    case Arr(gap, slots) =>
      if slots == [] {
        Inside('[', gap, ']', rest);
        EmptyInside(gap, ']', rest);
      } else {
        Inside('[', SlotsText(slots), ']', rest);
        SlotsParse(slots, rest);
        SlotsStart(slots, [']'] + rest);
      }
      ParseArrayValue(s, Trees(slots), rest);
    case Obj(gap, es) =>
      if es == [] {
        Inside('{', gap, '}', rest);
        EmptyInside(gap, '}', rest);
      } else {
        Inside('{', EntriesText(es), '}', rest);
        EntriesParse(es, rest);
        EntriesStart(es, ['}'] + rest);
      }
      ParseObjectValue(s, Members(es), rest);
  }

  /** The first slot and what stands behind it. */
  lemma SlotUnfold(s: Slot, t: string)
    requires AcceptsSlot(s, t)
    ensures Skip(SlotText(s) + t) == FormText(s.form) + (s.after + t)
    ensures Skip(s.after + t) == Skip(t)
  {
    hide FormText, Accepts, Skip, Blank;
    assert SlotText(s) + t == s.before + (FormText(s.form) + (s.after + t));
    BlankSkips(s.before, FormText(s.form) + (s.after + t));
    FormStarts(s.form, s.after + t);
    BlankSkips(s.after, t);
  }

  lemma SlotsUnfold(slots: seq<Slot>, t: string)
    requires slots != []
    ensures SlotsText(slots) + t == SlotText(slots[0]) + Behind(slots, t)
  {
    hide SlotText;
    if |slots| > 1 {
      Seam3(SlotText(slots[0]), [','], SlotsText(slots[1..]), t);
    }
  }

  lemma SlotsStart(slots: seq<Slot>, t: string)
    requires slots != [] && AcceptsSlots(slots, t)
    ensures Front(Skip(SlotsText(slots) + t)) != ']'
  {
    hide SlotText, SlotsText, FormText, Accepts, Skip, Behind;
    SlotsUnfold(slots, t);
    SlotUnfold(slots[0], Behind(slots, t));
    FormStarts(slots[0].form, slots[0].after + Behind(slots, t));
  }

  lemma {:induction false} SlotsParse(slots: seq<Slot>, rest: string)
    requires slots != [] && AcceptsSlots(slots, [']'] + rest)
    ensures ParseItems(Skip(SlotsText(slots) + ([']'] + rest))) == Done(Trees(slots), rest)
    decreases slots, 0
  {
    hide ParseValue, ParseItems, SlotsText, SlotText, FormText, Tree, Accepts, Skip;
    var t := [']'] + rest;
    SlotsUnfold(slots, t);
    var u := Behind(slots, t);
    AfterValue(']', rest);
    AfterValue(',', SlotsText(slots[1..]) + t);
    SlotUnfold(slots[0], u);
    FormParses(slots[0].form, slots[0].after + u);
    var s := Skip(SlotsText(slots) + t);
    if |slots| > 1 {
      SlotsParse(slots[1..], rest);
      NextItem(s, Tree(slots[0].form), slots[0].after + u, Trees(slots[1..]), rest);
    } else {
      OneTree(slots);
      LastItem(s, Tree(slots[0].form), slots[0].after + u, rest);
    }
  }

  lemma OneTree(slots: seq<Slot>)
    requires |slots| == 1
    ensures Trees(slots) == [Tree(slots[0].form)]
  {
    assert slots[1..] == [];
  }

  lemma NextItem(s: string, v: Json, t: string, vs: seq<Json>, rest: string)
    requires ParseValue(s) == Done(v, t) && Front(Skip(t)) == ',' && ParseItems(Skip(Skip(t)[1..])) == Done(vs, rest)
    ensures ParseItems(s) == Done([v] + vs, rest)
  {
    hide ParseValue, Skip;
  }

  lemma LastItem(s: string, v: Json, t: string, rest: string)
    requires ParseValue(s) == Done(v, t) && Skip(t) == [']'] + rest
    ensures ParseItems(s) == Done([v], rest)
  {
    hide ParseValue, Skip;
    assert ([']'] + rest)[1..] == rest;
  }

  lemma QuoteStarts(ps: seq<Piece>, t: string)
    ensures Skip(QuotedText(ps, true) + t) == QuotedText(ps, true) + t && Front(QuotedText(ps, true) + t) == '\"'
  {
    hide Texts;
    assert (QuotedText(ps, true) + t)[0] == '\"';
  }

  lemma EntryUnfold(e: Entry, t: string)
    requires Blank(e.before) && Blank(e.after)
    ensures Skip(EntryText(e) + t) == QuotedText(e.name, true) + (e.after + ([':'] + (SlotText(e.slot) + t)))
    ensures Skip(e.after + ([':'] + (SlotText(e.slot) + t))) == [':'] + (SlotText(e.slot) + t)
  {
    hide QuotedText, SlotText, Skip, Blank;
    var v := [':'] + (SlotText(e.slot) + t);
    assert EntryText(e) + t == e.before + (QuotedText(e.name, true) + (e.after + v));
    BlankSkips(e.before, QuotedText(e.name, true) + (e.after + v));
    QuoteStarts(e.name, e.after + v);
    BlankSkips(e.after, v);
    ColonStays(SlotText(e.slot) + t);
  }

  lemma EntriesUnfold(es: seq<Entry>, t: string)
    requires es != []
    ensures EntriesText(es) + t == EntryText(es[0]) + BehindEntry(es, t)
  {
    hide EntryText;
    if |es| > 1 {
      Seam3(EntryText(es[0]), [','], EntriesText(es[1..]), t);
    }
  }

  lemma EntriesStart(es: seq<Entry>, t: string)
    requires es != [] && AcceptsEntries(es, t)
    ensures Front(Skip(EntriesText(es) + t)) != '}'
  {
    hide EntryText, EntriesText, QuotedText, Skip, SlotText, AcceptsString, AcceptsSlot, Blank, BehindEntry;
    EntriesUnfold(es, t);
    EntryUnfold(es[0], BehindEntry(es, t));
    QuoteStarts(es[0].name, es[0].after + ([':'] + (SlotText(es[0].slot) + BehindEntry(es, t))));
  }

  lemma {:induction false} EntriesParse(es: seq<Entry>, rest: string)
    requires es != [] && AcceptsEntries(es, ['}'] + rest)
    ensures ParseMembers(Skip(EntriesText(es) + (['}'] + rest))) == Done(Members(es), rest)
    decreases es, 0
  {
    hide ParseValue, ParseMembers, ParseString, EntriesText, EntryText, SlotText, QuotedText, FormText, Tree, Accepts;
    hide Skip, AcceptsString, Bytes, Blank;
    var t := ['}'] + rest;
    EntriesUnfold(es, t);
    var e, u := es[0], BehindEntry(es, t);
    AfterValue('}', rest);
    AfterValue(',', EntriesText(es[1..]) + t);
    EntryUnfold(e, u);
    SlotUnfold(e.slot, u);
    ColonStays(SlotText(e.slot) + u);
    StringReads(e.name, true, e.after + ([':'] + (SlotText(e.slot) + u)));
    FormParses(e.slot.form, e.slot.after + u);
    var m := Member(Bytes(e.name), Tree(e.slot.form));
    var s := Skip(EntriesText(es) + t);
    if |es| > 1 {
      EntriesParse(es[1..], rest);
      NextMember(s, m, e.after + ([':'] + (SlotText(e.slot) + u)), e.slot.after + u, Members(es[1..]), rest);
    } else {
      OneMember(es);
      LastMember(s, m, e.after + ([':'] + (SlotText(e.slot) + u)), e.slot.after + u, rest);
    }
  }

  lemma OneMember(es: seq<Entry>)
    requires |es| == 1
    ensures Members(es) == [Member(Bytes(es[0].name), Tree(es[0].slot.form))]
  {
    assert es[1..] == [];
  }

  lemma NextMember(s: string, m: Member, a: string, t: string, ms: seq<Member>, rest: string)
    requires ParseString(s) == Done(m.name, a) && Front(Skip(a)) == ':'
    requires ParseValue(Skip(Skip(a)[1..])) == Done(m.value, t)
    requires Front(Skip(t)) == ',' && ParseMembers(Skip(Skip(t)[1..])) == Done(ms, rest)
    ensures ParseMembers(s) == Done([m] + ms, rest)
  {
    hide ParseValue, ParseString, Skip;
  }

  lemma LastMember(s: string, m: Member, a: string, t: string, rest: string)
    requires ParseString(s) == Done(m.name, a) && Front(Skip(a)) == ':'
    requires ParseValue(Skip(Skip(a)[1..])) == Done(m.value, t) && Skip(t) == ['}'] + rest
    ensures ParseMembers(s) == Done([m], rest)
  {
    hide ParseValue, ParseString, Skip;
    assert (['}'] + rest)[1..] == rest;
  }

  // ---- What is read is described

  lemma {:induction false} ValueSound(s: string) returns (f: Form)
    requires ParseValue(s).Done?
    ensures var r := ParseValue(s); s == FormText(f) + r.rest && Tree(f) == r.value && Accepts(f, r.rest)
    decreases |s|, 1
  {
    hide ParseString, ParseItems, ParseMembers, ParseNumber, SlotsText, EntriesText, NumeralText, QuotedText, Bytes;
    hide AcceptsNumeral, Denotes, AcceptsString, AcceptsSlots, AcceptsEntries, Truncate, FitsInt, Skip, Blank;
    var rest := ParseValue(s).rest;
    if StartsWith(s, "null") || StartsWith(s, "false") || StartsWith(s, "true") {
      f := Word(ParseValue(s).value);
    } else if Front(s) == '\"' {
      var ps, closed := StringSound(s);
      f := Str(ps, closed);
    } else if Front(s) == '-' || IsDigit(Front(s)) {
      var n, v, x, d := NumberSound(s);
      f := Num(n, v, x, d);
    } else if Front(s) == '[' {
      assert s == [s[0]] + s[1..];
      var b := SkipCut(s[1..]);
      var t := Skip(s[1..]);
      if Front(t) == ']' {
        f := Arr(b, []);
        NoSlots([']'] + rest);
        Bracketed(s, b, ']', t);
      } else {
        var slots := ItemsSound(b, t);
        f := Arr("", slots);
        Bracketed(s, SlotsText(slots), ']', [']'] + rest);
        NoBlank();
      }
    } else {
      assert s == [s[0]] + s[1..];
      var b := SkipCut(s[1..]);
      var t := Skip(s[1..]);
      if Front(t) == '}' {
        f := Obj(b, []);
        NoEntries(['}'] + rest);
        Bracketed(s, b, '}', t);
      } else {
        var es := MembersSound(b, t);
        f := Obj("", es);
        Bracketed(s, EntriesText(es), '}', ['}'] + rest);
        NoBlank();
      }
    }
  }

  lemma NoBlank()
    ensures Blank("")
  {
  }

  lemma NoSlots(t: string)
    ensures AcceptsSlots([], t)
  {
  }

  lemma NoEntries(t: string)
    ensures AcceptsEntries([], t)
  {
  }

  lemma Bracketed(s: string, inner: string, close: char, t: string)
    requires s != "" && t != "" && t[0] == close && s[1..] == inner + t
    ensures s == [s[0]] + inner + [close] + t[1..]
  {
    assert s == [s[0]] + s[1..] && t == [close] + t[1..];
    assert [s[0]] + (inner + ([close] + t[1..])) == [s[0]] + inner + [close] + t[1..];
  }

  /** A value of an array, between blanks. */
  lemma SlotJoined(b: string, f: Form, a: string, u: string)
    ensures b + (FormText(f) + (a + u)) == SlotText(Slot(b, f, a)) + u
  {
    hide FormText;
    assert b + (FormText(f) + (a + u)) == b + (FormText(f) + a) + u;
  }

  lemma {:induction false} ItemsSound(b: string, s: string) returns (slots: seq<Slot>)
    requires ParseItems(s).Done? && Blank(b)
    ensures var r := ParseItems(s);
            && slots != [] && b + s == SlotsText(slots) + ([']'] + r.rest) && Trees(slots) == r.value
            && AcceptsSlots(slots, [']'] + r.rest)
    decreases |s|, 2
  {
    hide ParseValue, SlotText, FormText, Tree, Accepts, Skip, Blank;
    var f := ValueSound(s);
    var t := ParseValue(s).rest;
    var a := SkipCut(t);
    var u := Skip(t);
    var rest := ParseItems(s).rest;
    SlotJoined(b, f, a, u);
    var first := Slot(b, f, a);
    if Front(u) == ',' {
      var b2 := SkipCut(u[1..]);
      var more := ItemsSound(b2, Skip(u[1..]));
      slots := [first] + more;
      assert slots[1..] == more && u == [','] + u[1..];
      assert Behind(slots, [']'] + rest) == u;
    } else {
      slots := [first];
      assert slots[1..] == [] && u == [']'] + rest;
      OneTree(slots);
      NoSlots([']'] + rest);
    }
    SlotsUnfold(slots, [']'] + rest);
  }

  /** A member, between blanks. */
  lemma EntryJoined(b: string, ps: seq<Piece>, a: string, slot: Slot, u: string)
    ensures b + (QuotedText(ps, true) + (a + ([':'] + (SlotText(slot) + u)))) == EntryText(Entry(b, ps, a, slot)) + u
  {
    hide QuotedText, SlotText;
    var q, t := QuotedText(ps, true), SlotText(slot);
    assert b + (q + (a + ([':'] + (t + u)))) == b + (q + (a + ([':'] + t))) + u;
  }

  lemma {:induction false} MembersSound(b: string, s: string) returns (es: seq<Entry>)
    requires ParseMembers(s).Done? && Blank(b)
    ensures var r := ParseMembers(s);
            && es != [] && b + s == EntriesText(es) + (['}'] + r.rest) && Members(es) == r.value
            && AcceptsEntries(es, ['}'] + r.rest)
    decreases |s|, 2
  {
    hide ParseValue, ParseString, SlotText, EntryText, FormText, QuotedText, Tree, Accepts, AcceptsString, Skip, Blank;
    hide Bytes;
    var ps, closed := StringSound(s);
    var t0 := ParseString(s).rest;
    NameCloses(ps, closed, t0);
    var a := SkipCut(t0);
    var t1 := Skip(t0);
    assert t1 == [':'] + t1[1..];
    var c := SkipCut(t1[1..]);
    var v := Skip(t1[1..]);
    var f := ValueSound(v);
    var t2 := ParseValue(v).rest;
    var d := SkipCut(t2);
    var u := Skip(t2);
    var rest := ParseMembers(s).rest;
    var slot := Slot(c, f, d);
    SlotJoined(c, f, d, u);
    var first := Entry(b, ps, a, slot);
    EntryJoined(b, ps, a, slot, u);
    assert t1[1..] == SlotText(slot) + u && t0 == a + ([':'] + (SlotText(slot) + u));
    assert AcceptsEntry(first, u);
    if Front(u) == ',' {
      var b2 := SkipCut(u[1..]);
      var more := MembersSound(b2, Skip(u[1..]));
      es := [first] + more;
      assert es[1..] == more && u == [','] + u[1..];
      assert BehindEntry(es, ['}'] + rest) == u;
    } else {
      es := [first];
      assert es[1..] == [] && u == ['}'] + rest;
      OneMember(es);
      NoEntries(['}'] + rest);
    }
    EntriesUnfold(es, ['}'] + rest);
  }

  /** A name has its closing quote, as a colon stands behind it. */
  lemma NameCloses(ps: seq<Piece>, closed: bool, t: string)
    requires AcceptsString(ps, closed, t) && Front(Skip(t)) == ':'
    ensures closed
  {
    hide AllAccepted;
  }

  // ---- Main results

  /** A value is read exactly from the texts described, as the tree they write. */
  lemma ValueIff(s: string, j: Json, rest: string)
    ensures ParseValue(s) == Done(j, rest)
       <==> exists f: Form :: Accepts(f, rest) && s == FormText(f) + rest && Tree(f) == j
  {
    hide ParseValue, Accepts, FormText, Tree;
    if ParseValue(s) == Done(j, rest) {
      var f := ValueSound(s);
    }
    if f: Form :| Accepts(f, rest) && s == FormText(f) + rest && Tree(f) == j {
      FormParses(f, rest);
    }
  }

  /** So is a whole text, with blanks around it and nothing else. */
  lemma TextIff(s: string, j: Json)
    ensures ParseWithOpts(s, true) == Done(j, "")
       <==> exists t: Slot :: AcceptsSlot(t, "") && s == SlotText(t) && Tree(t.form) == j
  {
    hide ParseValue, Accepts, FormText, Tree, Skip, Blank;
    if ParseWithOpts(s, true) == Done(j, "") {
      var b := SkipCut(s);
      var f := ValueSound(Skip(s));
      var rest := ParseValue(Skip(s)).rest;
      var a := SkipCut(rest);
      assert a + "" == a == rest && rest + "" == rest;
      assert AcceptsSlot(Slot(b, f, rest), "") && s == SlotText(Slot(b, f, rest));
    }
    if t: Slot :| AcceptsSlot(t, "") && s == SlotText(t) && Tree(t.form) == j {
      assert SlotText(t) + "" == s && t.after + "" == t.after;
      SlotUnfold(t, "");
      FormParses(t.form, t.after);
      NothingLeft(t.after);
    }
  }

  lemma NothingLeft(b: string)
    ensures Skip(b) == Skip(b + "") && Skip("") == ""
  {
    assert b + "" == b;
  }

  /** Every JSON text of RFC 8259 whose numbers fit is one of them, and nothing behind it is
      taken for a part of it. */
  lemma LegalTextParses(s: Slot, rest: string)
    requires LegalSlot(s) && (s.form.Num? ==> NumberEnds(s.after + rest))
    ensures ParseWithOpts(SlotText(s) + rest, false) == Done(Tree(s.form), s.after + rest)
    ensures ParseWithOpts(SlotText(s) + rest, true) == if Skip(rest) == "" then Done(Tree(s.form), "") else Fail
  {
    hide ParseValue, FormText, LegalForm, Tree, Skip, NumberEnds, Accepts;
    LegalAccepts(s.form, s.after + rest);
    SlotUnfold(s, rest);
    FormParses(s.form, s.after + rest);
  }
}
