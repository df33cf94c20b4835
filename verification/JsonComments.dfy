/** What the minifier keeps of any text: the text is cut into blanks, comments, string
    literals and single characters, and the last two are what is left. */
module JsonComments {
  import opened Basics
  import opened JsonText

  /** A stretch of the text, and what is left of it. */
  datatype Chunk = Chunk(text: string, kept: string)

  predicate Space(c: char) {
    c == ' ' || c == '\t' || c == '\r' || c == '\n'
  }

  predicate IsBlank(c: Chunk) {
    |c.text| == 1 && Space(c.text[0]) && c.kept == ""
  }

  /** `//` and the rest of the line, up to a newline or the end. */
  predicate IsLine(c: Chunk, next: string) {
    && |c.text| >= 2 && c.text[..2] == "//" && c.kept == ""
    && (forall i :: 0 <= i < |c.text| ==> c.text[i] != '\n')
    && (next == "" || next[0] == '\n')
  }

  predicate Closes(t: string, i: nat) {
    i + 1 < |t| && t[i] == '*' && t[i + 1] == '/'
  }

  /** A slash and a star, up to the first star and slash behind the opening slash. */
  predicate IsBlock(c: Chunk) {
    && |c.text| >= 3 && c.text[..2] == "/*" && c.kept == ""
    && Closes(c.text, |c.text| - 2) && forall i: nat :: 1 <= i < |c.text| - 2 ==> !Closes(c.text, i)
  }

  /** Up to the first quote that no backslash escapes. */
  predicate LiteralTail(t: string) {
    if t == "" then false
    else if t[0] == '\"' then |t| == 1
    else if t[0] == '\\' then |t| >= 2 && LiteralTail(t[2..])
    else LiteralTail(t[1..])
  }

  predicate IsLiteral(c: Chunk) {
    c.text != "" && c.text[0] == '\"' && LiteralTail(c.text[1..]) && c.kept == c.text
  }

  /** Any other character; a slash does not start a comment. */
  predicate IsOther(c: Chunk, next: string) {
    && |c.text| == 1 && !Space(c.text[0]) && c.text[0] != '\"' && c.kept == c.text
    && (c.text[0] == '/' ==> next == "" || (next[0] != '/' && next[0] != '*'))
  }

  predicate LegalChunk(c: Chunk, next: string) {
    IsBlank(c) || IsLine(c, next) || IsBlock(c) || IsLiteral(c) || IsOther(c, next)
  }

  function Texts(cs: seq<Chunk>): string {
    if cs == [] then "" else cs[0].text + Texts(cs[1..])
  }

  function Kept(cs: seq<Chunk>): string {
    if cs == [] then "" else cs[0].kept + Kept(cs[1..])
  }

  ghost predicate AllLegal(cs: seq<Chunk>) {
    cs != [] ==> LegalChunk(cs[0], Texts(cs[1..])) && AllLegal(cs[1..])
  }

  /** The text can be cut so, and `m` is what the cut keeps. */
  ghost predicate KeptForm(s: string, m: string) {
    exists cs: seq<Chunk> :: s == Texts(cs) && m == Kept(cs) && AllLegal(cs)
  }

  function Prepended(a: string, m: Option<string>): Option<string> {
    match m
    case None => None
    case Some(t) => Some(a + t)
  }

  // ---- Each kind of chunk

  lemma {:induction false} LineDropped(t: string, next: string)
    requires (forall i :: 0 <= i < |t| ==> t[i] != '\n') && (next == "" || next[0] == '\n')
    ensures DropLine(t + next) == next
  {
    if t == "" {
      assert t + next == next;
    } else {
      assert (t + next)[1..] == t[1..] + next;
      LineDropped(t[1..], next);
    }
  }

  lemma {:induction false} BlockDropped(t: string, next: string)
    requires |t| >= 2 && Closes(t, |t| - 2) && forall i: nat :: 0 <= i < |t| - 2 ==> !Closes(t, i)
    ensures DropBlock(t + next) == Some(next)
  {
    var s := t + next;
    assert s[0] == t[0] && s[1] == t[1] && s[1..][0] == s[1];
    if |t| == 2 {
      assert s[2..] == next;
    } else {
      assert !Closes(t, 0);
      assert s[1..] == t[1..] + next;
      assert Closes(t[1..], |t[1..]| - 2);
      forall i: nat | 0 <= i < |t[1..]| - 2
        ensures !Closes(t[1..], i)
      {
        assert !Closes(t, i + 1);
      }
      BlockDropped(t[1..], next);
    }
  }

  lemma {:induction false} LiteralPassed(t: string, next: string)
    requires LiteralTail(t)
    ensures Literal(t + next) == Some((t, next))
    decreases |t|
  {
    var s := t + next;
    if t[0] == '\"' {
      assert s[..1] == t && s[1..] == next;
    } else {
      var k := if t[0] == '\\' then 2 else 1;
      assert s[k..] == t[k..] + next && s[..k] == t[..k] && t == t[..k] + t[k..];
      LiteralPassed(t[k..], next);
    }
  }

  lemma ChunkMinifies(c: Chunk, next: string)
    requires LegalChunk(c, next)
    ensures c.text != "" && Minified(c.text + next) == Prepended(c.kept, Minified(next))
  {
    hide DropLine, DropBlock, Literal, LiteralTail;
    var s := c.text + next;
    assert s[0] == c.text[0];
    if IsLiteral(c) {
      LiteralPassed(c.text[1..], next);
      assert s[1..] == c.text[1..] + next && c.text == ['\"'] + c.text[1..];
    } else if IsLine(c, next) {
      assert s[1..] == c.text[1..] + next && s[1..][0] == c.text[1];
      LineDropped(c.text[1..], next);
      NothingKept(next);
    } else if IsBlock(c) {
      BlockMinifies(c, next);
    } else if IsBlank(c) {
      assert s[1..] == next;
      NothingKept(next);
    } else {
      assert s[1..] == next && c.kept == [s[0]];
    }
  }

  lemma NothingKept(next: string)
    ensures Prepended("", Minified(next)) == Minified(next)
  {
    match Minified(next)
    case None =>
    case Some(m) => assert "" + m == m;
  }

  lemma BlockMinifies(c: Chunk, next: string)
    requires IsBlock(c)
    ensures Minified(c.text + next) == Prepended(c.kept, Minified(next))
  {
    hide DropLine, DropBlock, Literal;
    var s, t := c.text + next, c.text[1..];
    assert s[0] == '/' && s[1..] == t + next && s[1..][0] == c.text[1] == '*';
    assert Closes(t, |t| - 2);
    forall i: nat | 0 <= i < |t| - 2
      ensures !Closes(t, i)
    {
      assert !Closes(c.text, i + 1);
    }
    BlockDropped(t, next);
    NothingKept(next);
  }

  lemma {:induction false} ChunksMinify(cs: seq<Chunk>)
    requires AllLegal(cs)
    ensures Minified(Texts(cs)) == Some(Kept(cs))
  {
    hide Minified, LegalChunk;
    if cs == [] {
      EmptyMinifies();
    } else {
      ChunksMinify(cs[1..]);
      ChunkMinifies(cs[0], Texts(cs[1..]));
    }
  }

  lemma EmptyMinifies()
    ensures Minified("") == Some("")
  {
  }

  // ---- Every text is cut so

  lemma {:induction false} LineCut(s: string)
    ensures var r := DropLine(s);
            && s == s[..|s| - |r|] + r && (r == "" || r[0] == '\n')
            && forall i :: 0 <= i < |s| - |r| ==> s[i] != '\n'
  {
    if s != "" && s[0] != '\n' {
      LineCut(s[1..]);
      var r := DropLine(s[1..]);
      assert s[..|s| - |r|] == [s[0]] + s[1..][..|s| - 1 - |r|];
    }
  }

  lemma {:induction false} BlockCut(s: string)
    requires DropBlock(s).Some?
    ensures var r := DropBlock(s).value;
            var n := |s| - |r|;
            && n >= 2 && s == s[..n] + r && Closes(s[..n], n - 2)
            && forall i: nat :: 0 <= i < n - 2 ==> !Closes(s[..n], i)
  {
    if s[0] == '*' && Front(s[1..]) == '/' {
      assert s[1..][0] == s[1] && s[..2] + s[2..] == s;
    } else {
      BlockCut(s[1..]);
      var r := DropBlock(s[1..]).value;
      var n := |s| - |r|;
      assert s[..n] == [s[0]] + s[1..][..n - 1];
      assert s[..n][n - 2] == s[1..][..n - 1][n - 3];
      forall i: nat | 0 <= i < n - 2
        ensures !Closes(s[..n], i)
      {
        if i > 0 {
          assert !Closes(s[1..][..n - 1], i - 1);
        } else {
          assert s[1..][0] == s[1];
        }
      }
    }
  }

  lemma {:induction false} LiteralCut(s: string)
    requires Literal(s).Some?
    ensures LiteralTail(Literal(s).value.0)
    decreases |s|
  {
    if s[0] != '\"' {
      var k := if s[0] == '\\' then 2 else 1;
      LiteralCut(s[k..]);
      var p := Literal(s[k..]).value.0;
      assert (s[..k] + p)[0] == s[0] && (s[..k] + p)[k..] == p;
    }
  }

  /** The first chunk of a text, and what the minifier is left with. */
  lemma FirstChunk(s: string) returns (c: Chunk, next: string)
    requires s != "" && Minified(s).Some?
    ensures c.text != "" && s == c.text + next && LegalChunk(c, next)
  {
    hide DropLine, DropBlock, Literal, LiteralTail;
    assert s == [s[0]] + s[1..];
    if Space(s[0]) {
      c, next := Chunk([s[0]], ""), s[1..];
    } else if s[0] == '/' && Front(s[1..]) == '/' {
      LineCut(s[1..]);
      next := DropLine(s[1..]);
      c := Chunk(s[..|s| - |next|], "");
      LineChunk(s, next);
    } else if s[0] == '/' && Front(s[1..]) == '*' {
      BlockCut(s[1..]);
      next := DropBlock(s[1..]).value;
      c := Chunk(s[..|s| - |next|], "");
      BlockChunk(s, next);
    } else if s[0] == '\"' {
      LiteralCut(s[1..]);
      var p := Literal(s[1..]).value;
      next := p.1;
      c := Chunk(['\"'] + p.0, ['\"'] + p.0);
      assert c.text[1..] == p.0;
    } else {
      c, next := Chunk([s[0]], [s[0]]), s[1..];
    }
  }

  lemma LineChunk(s: string, r: string)
    requires s != "" && s[0] == '/' && Front(s[1..]) == '/' && |r| <= |s| - 1
    requires s[1..] == s[1..][..|s| - 1 - |r|] + r && (r == "" || r[0] == '\n')
    requires forall i :: 0 <= i < |s| - 1 - |r| ==> s[1..][i] != '\n'
    ensures var t := s[..|s| - |r|]; s == t + r && IsLine(Chunk(t, ""), r)
  {
    var t := s[..|s| - |r|];
    assert t == [s[0]] + s[1..][..|s| - 1 - |r|];
    assert |s| >= 2 && s[1] == '/';
    assert Front(r) != '/' && r != s[1..];
    assert t[..2] == [s[0], s[1]];
    forall i | 0 <= i < |t|
      ensures t[i] != '\n'
    {
      assert i > 0 ==> t[i] == s[1..][i - 1];
    }
  }

  lemma BlockChunk(s: string, r: string)
    requires s != "" && s[0] == '/' && Front(s[1..]) == '*' && |r| + 3 <= |s|
    requires var n := |s| - 1 - |r|;
             && s[1..] == s[1..][..n] + r && Closes(s[1..][..n], n - 2)
             && forall i: nat :: 0 <= i < n - 2 ==> !Closes(s[1..][..n], i)
    ensures var t := s[..|s| - |r|]; s == t + r && IsBlock(Chunk(t, ""))
  {
    var n := |s| - 1 - |r|;
    var t := s[..n + 1];
    assert t == [s[0]] + s[1..][..n];
    assert t[..2] == [s[0], s[1]] && s[1] == s[1..][0];
    assert t[n - 1] == s[1..][..n][n - 2];
    forall i: nat | 1 <= i < |t| - 2
      ensures !Closes(t, i)
    {
      assert !Closes(s[1..][..n], i - 1);
    }
  }

  lemma {:induction false} MinifiedCut(s: string) returns (cs: seq<Chunk>)
    requires Minified(s).Some?
    ensures s == Texts(cs) && AllLegal(cs)
    decreases |s|
  {
    hide Minified, LegalChunk;
    if s == "" {
      cs := [];
    } else {
      var c, next := FirstChunk(s);
      ChunkMinifies(c, next);
      var rest := MinifiedCut(next);
      cs := [c] + rest;
      assert cs[1..] == rest;
    }
  }

  /** What the minifier makes of any text at all is what the cut keeps: comments and blanks
      outside of literals go, everything else stays. */
  lemma MinifiedKeeps(s: string, m: string)
    ensures Minified(s) == Some(m) <==> KeptForm(s, m)
  {
    hide Minified, AllLegal;
    if Minified(s) == Some(m) {
      var cs := MinifiedCut(s);
      ChunksMinify(cs);
    }
    if KeptForm(s, m) {
      var cs: seq<Chunk> :| s == Texts(cs) && m == Kept(cs) && AllLegal(cs);
      ChunksMinify(cs);
    }
  }
}
