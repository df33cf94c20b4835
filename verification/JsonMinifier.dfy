/** The in-place minifier: a write index that never overtakes the read index. */
module JsonMinifier {
  import opened Basics
  import opened CBuffer
  import opened JsonMinify
  import opened JsonText

  /** The buffer while the loop runs: written up to `into`, still to be read from `at`. */
  ghost predicate Between(json: array<char>, text: string, into: nat, at: nat)
    reads json
  {
    && into <= at <= |text| < json.Length && json[|text|] == '\0'
    && forall i :: at <= i < |text| ==> json[i] == text[i]
  }

  /** `*into++ = *json++`. */
  method Move(json: array<char>, into_: nat, at_: nat, ghost text: string) returns (into: nat, at: nat)
    requires Between(json, text, into_, at_) && at_ < |text|
    modifies json
    ensures into == into_ + 1 && at == at_ + 1 && Between(json, text, into, at)
    ensures json[..into] == old(json[..into_]) + [text[at_]]
  {
    json[into_] := json[at_];
    into, at := into_ + 1, at_ + 1;
    assert json[..into_] == old(json[..into_]);
  }

  lemma AtEnd(json: array<char>, text: string, into: nat, at: nat)
    requires Between(json, text, into, at) && NoNul(text)
    ensures json[at] == Front(text[at..])
    ensures json[at] == '\0' <==> at == |text|
    ensures at < |text| ==> json[at + 1] == Front(text[at..][1..]) && text[at..][1..] == text[at + 1..]
  {
  }

  /** A double-slash comment, up to the end of its line. */
  method SkipLine(json: array<char>, at_: nat, ghost text: string, ghost into: nat) returns (at: nat)
    requires Between(json, text, into, at_) && NoNul(text)
    ensures Between(json, text, into, at) && at_ <= at && text[at..] == DropLine(text[at_..])
  {
    at := at_;
    AtEnd(json, text, into, at);
    while json[at] != '\0' && json[at] != '\n'
      invariant Between(json, text, into, at) && at_ <= at && DropLine(text[at..]) == DropLine(text[at_..])
      invariant json[at] == '\0' <==> at == |text|
      decreases |text| - at
    {
      AtEnd(json, text, into, at);
      at := at + 1;
      AtEnd(json, text, into, at);
    }
    AtEnd(json, text, into, at);
  }

  /** A multiline comment, with its closing mark. */
  method SkipBlock(json: array<char>, at_: nat, ghost text: string, ghost into: nat) returns (at: nat)
    requires Between(json, text, into, at_) && NoNul(text) && DropBlock(text[at_..]).Some?
    ensures Between(json, text, into, at) && at_ < at && DropBlock(text[at_..]) == Some(text[at..])
  {
    at := at_;
    AtEnd(json, text, into, at);
    while json[at] != '\0' && !(json[at] == '*' && json[at + 1] == '/')
      invariant Between(json, text, into, at) && at_ <= at && DropBlock(text[at..]) == DropBlock(text[at_..])
      invariant json[at] == '\0' <==> at == |text|
      decreases |text| - at
    {
      AtEnd(json, text, into, at);
      at := at + 1;
      AtEnd(json, text, into, at);
    }
    AtEnd(json, text, into, at);
    at := at + 2;
    assert text[at - 2..][2..] == text[at..];
  }

  /** How much of a literal one round of the copying loop takes. */
  function Chunk(s: string): nat
    requires s != ""
  {
    if s[0] == '\\' then 2 else 1
  }

  lemma LiteralUnfold(s: string, a: string)
    requires Literal(s).Some?
    ensures s != ""
    ensures s[0] == '\"' ==> Literal(s) == Some((s[..1], s[1..]))
    ensures s[0] != '\"' ==>
              && |s| >= Chunk(s) && Literal(s[Chunk(s)..]).Some?
              && Literal(s).value.1 == Literal(s[Chunk(s)..]).value.1
              && a + Literal(s).value.0 == (a + s[..Chunk(s)]) + Literal(s[Chunk(s)..]).value.0
  {
    if s[0] != '\"' {
      assert a + (s[..Chunk(s)] + Literal(s[Chunk(s)..]).value.0)
          == (a + s[..Chunk(s)]) + Literal(s[Chunk(s)..]).value.0;
    }
  }

  /** One round: a backslash goes together with what it escapes. */
  method MoveChunk(json: array<char>, into_: nat, at_: nat, ghost text: string) returns (into: nat, at: nat)
    requires Between(json, text, into_, at_) && at_ < |text| && at_ + Chunk(text[at_..]) <= |text|
    modifies json
    ensures Between(json, text, into, at) && at == at_ + Chunk(text[at_..])
    ensures json[..into] == old(json[..into_]) + text[at_..][..Chunk(text[at_..])]
    ensures text[at_..][Chunk(text[at_..])..] == text[at..]
  {
    into, at := into_, at_;
    if json[at] == '\\' {
      into, at := Move(json, into, at, text);
    }
    into, at := Move(json, into, at, text);
    assert text[at_..][..Chunk(text[at_..])] == text[at_..at];
  }

  /** A string literal after its opening quote is copied with its closing quote. */
  method MoveLiteral(json: array<char>, into_: nat, at_: nat, ghost text: string) returns (into: nat, at: nat)
    requires Between(json, text, into_, at_) && NoNul(text) && Literal(text[at_..]).Some?
    modifies json
    ensures Between(json, text, into, at) && at_ < at && Literal(text[at_..]).value.1 == text[at..]
    ensures json[..into] == old(json[..into_]) + Literal(text[at_..]).value.0
  {
    hide Literal, Chunk;
    into, at := into_, at_;
    AtEnd(json, text, into, at);
    LiteralUnfold(text[at..], json[..into]);
    while json[at] != '\0' && json[at] != '\"'
      invariant Between(json, text, into, at) && at_ <= at && Literal(text[at..]).Some? && at < |text|
      invariant json[at] == text[at..][0] != '\0'
      invariant Literal(text[at..]).value.1 == Literal(text[at_..]).value.1
      invariant json[..into] + Literal(text[at..]).value.0 == old(json[..into_]) + Literal(text[at_..]).value.0
      decreases |text| - at
    {
      LiteralUnfold(text[at..], json[..into]);
      ChunkSize(text[at..]);
      into, at := MoveChunk(json, into, at, text);
      LiteralUnfold(text[at..], []);
      AtEnd(json, text, into, at);
    }
    LiteralUnfold(text[at..], []);
    assert text[at..][..1] == [text[at]] && text[at..][1..] == text[at + 1..];
    into, at := Move(json, into, at, text);
  }

  lemma ChunkSize(s: string)
    requires s != ""
    ensures 1 <= Chunk(s) <= 2
  {
  }

  /** What one round of the main loop does to the text that is left. */
  lemma MinifiedStep(t: string)
    requires t != "" && Minified(t).Some?
    ensures Blank(t[0]) ==> Minified(t) == Minified(t[1..])
    ensures t[0] == '/' && Front(t[1..]) == '/' ==> Minified(t) == Minified(DropLine(t[1..]))
    ensures t[0] == '/' && Front(t[1..]) == '*' ==>
            DropBlock(t[1..]).Some? && Minified(t) == Minified(DropBlock(t[1..]).value)
    ensures t[0] == '\"' ==> Literal(t[1..]).Some?
    ensures t[0] == '\"' ==> Minified(t) == Prepend(['\"'] + Literal(t[1..]).value.0, Minified(Literal(t[1..]).value.1))
    ensures !Blank(t[0]) && t[0] != '\"' && !(t[0] == '/' && (Front(t[1..]) == '/' || Front(t[1..]) == '*')) ==>
              Minified(t) == Prepend([t[0]], Minified(t[1..]))
  {
    if t[0] == '\"' {
      var p := Literal(t[1..]);
      assert p.Some?;
      assert Minified(p.value.1).Some? ==>
        ['\"'] + p.value.0 + Minified(p.value.1).value == (['\"'] + p.value.0) + Minified(p.value.1).value;
    }
  }

  /** One round of the main loop. */
  method MinifyRound(json: array<char>, into_: nat, at_: nat, ghost text: string) returns (into: nat, at: nat)
    requires Between(json, text, into_, at_) && NoNul(text) && at_ < |text| && Minified(text[at_..]).Some?
    modifies json
    ensures Between(json, text, into, at) && at_ < at && Minified(text[at..]).Some?
    ensures Prepend(json[..into], Minified(text[at..])) == Prepend(old(json[..into_]), Minified(text[at_..]))
  {
    hide Minified, Literal, DropLine, DropBlock;
    into, at := into_, at_;
    MinifiedStep(text[at..]);
    AtEnd(json, text, into, at);
    if json[at] == ' ' || json[at] == '\t' || json[at] == '\r' || json[at] == '\n' {
      at := at + 1;
    } else if json[at] == '/' && json[at + 1] == '/' {
      at := SkipLine(json, at + 1, text, into);
    } else if json[at] == '/' && json[at + 1] == '*' {
      at := SkipBlock(json, at + 1, text, into);
    } else if json[at] == '\"' {
      into, at := Move(json, into, at, text);
      ghost var lit := Literal(text[at..]).value;
      into, at := MoveLiteral(json, into, at, text);
      assert json[..into] == old(json[..into_]) + (['\"'] + lit.0);
      PrependTwice(old(json[..into_]), ['\"'] + lit.0, Minified(text[at..]));
    } else {
      into, at := Move(json, into, at, text);
      PrependTwice(old(json[..into_]), [text[at_]], Minified(text[at..]));
    }
  }

  /** pc_JSON_Minify, on a text it does not run out of. */
  method MinifyInPlace(json: array<char>, ghost text: string)
    requires Holds(json, text) && NoNul(text) && Minified(text).Some?
    modifies json
    ensures Holds(json, Minified(text).value)
  {
    hide Minified;
    var into: nat, at: nat := 0, 0;
    assert forall i :: 0 <= i < |text| ==> json[i] == json[..|text|][i];
    assert text[0..] == text && json[..0] == [];
    PrependNothing(Minified(text));
    AtEnd(json, text, 0, 0);
    while json[at] != '\0'
      invariant Between(json, text, into, at) && Minified(text[at..]).Some?
      invariant Prepend(json[..into], Minified(text[at..])) == Minified(text)
      invariant json[at] == '\0' <==> at == |text|
      decreases |text| - at
    {
      into, at := MinifyRound(json, into, at, text);
      AtEnd(json, text, into, at);
    }
    assert text[at..] == "";
    MinifiedNothing();
    assert json[..into] + "" == json[..into];
    End(json, into);
  }

  lemma PrependNothing(m: Option<string>)
    ensures Prepend([], m) == m
  {
    assert m.Some? ==> [] + m.value == m.value;
  }

  lemma MinifiedNothing()
    ensures Minified("") == Some("")
  {
  }
}
