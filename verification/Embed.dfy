/** The raw-string embedder: tools/instruction-tracer/embed-html-assets.py. The emitted header is read back by a lexer
    written from sections 5.2 [lex.phases] and 5.13.5 [lex.string] of ISO C++. */
module Embed {
  import opened Text

  // --- finding a token ----------------------------------------------------------------------------

  predicate Starts(p: string, s: string) {
    |p| <= |s| && s[..|p|] == p
  }

  lemma StartsConcat(p: string, rest: string)
    ensures Starts(p, p + rest) && (p + rest)[|p|..] == rest
  {
  }

  predicate Occurs(t: string, s: string, i: nat) {
    i <= |s| && Starts(t, s[i..])
  }

  /** The first place of `t` in `s`. */
  function Find(t: string, s: string): Option<nat> {
    if Starts(t, s) then Some(0)
    else if s == "" then None
    else match Find(t, s[1..]) case None => None case Some(k) => Some(k + 1)
  }

  lemma {:induction false} FindFirst(t: string, s: string)
    ensures Find(t, s).Some? ==> Occurs(t, s, Find(t, s).value)
    ensures forall i: nat | Occurs(t, s, i) :: Find(t, s).Some? && Find(t, s).value <= i
  {
    hide Starts;
    assert s[0..] == s;
    if !Starts(t, s) {
      if s == "" {
        assert Find(t, s).None?;
      } else {
        FindFirst(t, s[1..]);
        forall i: nat | Occurs(t, s, i) ensures i > 0 && Occurs(t, s[1..], i - 1) {
          if i > 0 {
            assert s[1..][i - 1..] == s[i..];
          }
        }
        if Find(t, s[1..]).Some? {
          var k := Find(t, s[1..]).value;
          assert s[1..][k..] == s[k + 1..];
        }
      }
    }
  }

  lemma {:induction false} FindContains(t: string, s: string)
    ensures Find(t, s).Some? <==> Contains(s, t)
    decreases |s|
  {
    if s != "" {
      FindContains(t, s[1..]);
    }
  }

  lemma ContainsWhere(s: string, t: string)
    ensures Contains(s, t) <==> exists i: nat :: Occurs(t, s, i)
  {
    hide Find, Occurs, Contains;
    FindFirst(t, s);
    FindContains(t, s);
  }

  lemma ContainsSlice(s: string, t: string, a: nat, b: nat)
    requires a <= b <= |s| && Contains(s[a..b], t)
    ensures Contains(s, t)
  {
    hide Contains;
    ContainsWhere(s[a..b], t);
    var i: nat :| Occurs(t, s[a..b], i);
    assert s[a..b][i..][..|t|] == s[a + i..][..|t|];
    assert Occurs(t, s, a + i);
    ContainsWhere(s, t);
  }

  // --- the lexer ----------------------------------------------------------------------------------

  /** What a raw-string delimiter is made of. */
  predicate DChar(c: char) {
    c !in " ()\\\t\n" && c as int != 11 && c as int != 12
  }

  predicate Delimits(d: string) {
    |d| <= 16 && forall i | 0 <= i < |d| :: DChar(d[i])
  }

  function Token(d: string): string {
    ")" + d + "\""
  }

  /** The delimiter in front of the opening parenthesis. */
  function Delimiter(s: string): (r: Option<string>)
    ensures r.Some? ==> |r.value| < |s|
  {
    if s == "" then None
    else if s[0] == '(' then Some("")
    else if !DChar(s[0]) then None
    else match Delimiter(s[1..]) case None => None case Some(d) => Some([s[0]] + d)
  }

  /** The rest of a raw string behind `R"`: its value, and the text behind it. It closes at the first token. */
  function RawLiteral(s: string): (r: Option<(string, string)>)
    ensures r.Some? ==> |r.value.1| < |s|
  {
    match Delimiter(s)
    case None => None
    case Some(d) =>
      if |d| > 16 then None
      else
        var body := s[|d| + 1..];
        match Find(Token(d), body)
        case None => None
        case Some(k) => if k + |Token(d)| <= |body| then Some((body[..k], body[k + |Token(d)|..])) else None
  }

  /** The rest of an ordinary literal without escapes behind its opening quote. */
  function Quoted(s: string): (r: Option<(string, string)>)
    ensures r.Some? ==> |r.value.1| < |s|
  {
    if s == "" || s[0] == '\n' || s[0] == '\\' then None
    else if s[0] == '"' then Some(("", s[1..]))
    else match Quoted(s[1..]) case None => None case Some((v, rest)) => Some(([s[0]] + v, rest))
  }

  function AfterLine(s: string): (r: string)
    ensures |r| <= |s|
  {
    if s == "" then "" else if s[0] == '\n' then s[1..] else AfterLine(s[1..])
  }

  /** Skips whitespace and comments. */
  function Trivia(s: string): (r: string)
    ensures |r| <= |s|
    decreases |s|
  {
    if s == "" then ""
    else if IsSpace(s[0]) then Trivia(s[1..])
    else if Starts("//", s) then Trivia(AfterLine(s[2..]))
    else s
  }

  /** Adjacent literals up to the semicolon, concatenated. */
  function Literals(s: string, seen: bool): (r: Option<(string, string)>)
    ensures r.Some? ==> |r.value.1| < |s|
    decreases |s|
  {
    var t := Trivia(s);
    if Starts(";", t) then if seen then Some(("", t[1..])) else None
    else
      var first := if Starts("R\"", t) then RawLiteral(t[2..]) else if Starts("\"", t) then Quoted(t[1..]) else None;
      match first
      case None => None
      case Some((v, rest)) =>
        match Literals(rest, true) case None => None case Some((w, behind)) => Some((v + w, behind))
  }

  predicate Letter(c: char) {
    'a' <= c <= 'z' || 'A' <= c <= 'Z' || '0' <= c <= '9' || c == '_'
  }

  predicate Name(s: string) {
    forall i | 0 <= i < |s| :: Letter(s[i])
  }

  function Word(s: string): (r: (string, string))
    ensures |r.1| <= |s|
  {
    if s == "" || !Letter(s[0]) then ("", s) else var (w, rest) := Word(s[1..]); ([s[0]] + w, rest)
  }

  function Expect(p: string, s: string): (r: Option<string>)
    ensures r.Some? ==> |r.value| + |p| <= |s|
  {
    var t := Trivia(s);
    if Starts(p, t) then Some(t[|p|..]) else None
  }

  /** A variable of the header and its value. */
  datatype Variable = Variable(name: string, value: string)

  const DECL: string := "inline constexpr char const* "

  /** The definitions up to the closing brace. */
  function Variables(s: string): Option<seq<Variable>>
    decreases |s|
  {
    if Expect("}", s).Some? then if Trivia(Expect("}", s).value) == "" then Some([]) else None
    else match Expect(DECL, s)
      case None => None
      case Some(decl) =>
        var (name, init) := Word(decl);
        match Expect("=", init)
        case None => None
        case Some(values) =>
          match Literals(values, false)
          case None => None
          case Some((value, rest)) =>
            match Variables(rest) case None => None case Some(more) => Some([Variable(name, value)] + more)
  }

  /** The variables a compiler finds in the header. */
  function ReadHeader(s: string): Option<seq<Variable>> {
    match Expect(PRAGMA, s)
    case None => None
    case Some(a) =>
      match Expect(NAMESPACE, a)
      case None => None
      case Some(b) => match Expect("{", b) case None => None case Some(c) => Variables(c)
  }

  // --- reading back one literal -------------------------------------------------------------------

  lemma {:induction false} DelimiterReads(d: string, rest: string)
    requires forall i | 0 <= i < |d| :: DChar(d[i])
    ensures Delimiter(d + "(" + rest) == Some(d)
  {
    var s := d + "(" + rest;
    if d == "" {
      assert s[0] == '(';
    } else {
      DelimiterReads(d[1..], rest);
      assert s[1..] == d[1..] + "(" + rest;
      assert d == [d[0]] + d[1..];
      assert s[0] == d[0];
    }
  }

  /** The token has no proper border: a token that starts inside `text` ends inside it. */
  lemma NoBorder(d: string, text: string, rest: string, i: nat)
    requires Delimits(d) && i < |text| && Occurs(Token(d), text + Token(d) + rest, i)
    ensures Occurs(Token(d), text, i)
  {
    var t := Token(d);
    var s := text + t + rest;
    var at := s[i..][..|t|];
    assert at == t && forall k | i <= k < i + |t| :: s[k] == at[k - i];
    assert forall k | 0 < k < |t| :: at[k] != ')';
    assert s[|text|] == ')';
    assert text[i..][..|t|] == at;
  }

  /** A raw literal reads back as its text if and only if the text does not hold the closing token. */
  lemma RawReads(d: string, text: string, rest: string)
    requires Delimits(d)
    ensures RawLiteral(d + "(" + text + Token(d) + rest) == Some((text, rest)) <==> !Contains(text, Token(d))
  {
    hide Delimiter, Find, Occurs, Contains;
    var t := Token(d);
    ContainsWhere(text, t);
    var body := text + t + rest;
    var s := d + "(" + text + t + rest;
    assert s == d + "(" + body;
    DelimiterReads(d, body);
    assert s[|d| + 1..] == body;
    FindFirst(t, body);
    assert Occurs(t, body, |text|) by { OccursAt(t, text, rest); }
    var k := Find(t, body).value;
    assert k <= |text|;
    assert k == |text| ==> body[..k] == text && body[k + |t|..] == rest;
    if k < |text| {
      NoBorder(d, text, rest, k);
      assert |body[..k]| < |text|;
    } else if Contains(text, t) {
      var i: nat :| Occurs(t, text, i);
      OccursInFront(t, text, rest, i);
    }
  }

  lemma OccursAt(t: string, text: string, rest: string)
    ensures Occurs(t, text + t + rest, |text|)
  {
    assert (text + t + rest)[|text|..] == t + rest;
    StartsConcat(t, rest);
  }

  lemma OccursInFront(t: string, text: string, rest: string, i: nat)
    requires Occurs(t, text, i) && t != ""
    ensures i < |text| && Occurs(t, text + t + rest, i)
  {
    assert (text + t + rest)[i..][..|t|] == text[i..][..|t|];
  }

  // --- the emitter --------------------------------------------------------------------------------

  datatype Asset = Asset(name: string, text: Option<string>, delim: string)

  const CHUNK_SIZE: nat := 4000

  function Literal(d: string, chunk: string): string {
    "R\"" + d + "(" + chunk + ")" + d + "\""
  }

  /** One literal a chunk. */
  function Chunks(d: string, text: string): seq<string>
    decreases |text|
  {
    if text == "" then []
    else if |text| <= CHUNK_SIZE then [Literal(d, text)]
    else [Literal(d, text[..CHUNK_SIZE])] + Chunks(d, text[CHUNK_SIZE..])
  }

  /** No literal holds more than 4000 characters, and there are no more literals than that takes. */
  lemma {:induction false} ChunksFit(d: string, text: string)
    ensures |Chunks(d, text)| == (|text| + 3999) / 4000
    ensures forall part <- Chunks(d, text) :: |part| <= 4000 + 2 * |d| + 5
    decreases |text|
  {
    if |text| > CHUNK_SIZE {
      ChunksFit(d, text[CHUNK_SIZE..]);
    }
  }

  const EMPTY_END: string := "\"\"; // (empty asset)"

  function Terminator(text: string): string {
    if text != "" then ";" else EMPTY_END
  }

  function AssetParts(name: string, d: string, text: string): seq<string> {
    [DECL + name + " ="] + Chunks(d, text) + [Terminator(text), ""]
  }

  predicate Usable(a: Asset) {
    a.text.Some? && Find(Token(a.delim), a.text.value).None?
  }

  predicate AllUsable(assets: seq<Asset>) {
    forall i | 0 <= i < |assets| :: Usable(assets[i])
  }

  /** The names and delimiters the tool is configured with. */
  predicate Good(a: Asset) {
    Name(a.name) && Delimits(a.delim)
  }

  function AllParts(assets: seq<Asset>): seq<string>
    requires AllUsable(assets)
  {
    if assets == [] then []
    else
      var last := assets[|assets| - 1];
      AllParts(assets[..|assets| - 1]) + AssetParts(last.name, last.delim, last.text.value)
  }

  const TOOL_DIR: string := "tools/instruction-tracer/"
  const TOOL: string := TOOL_DIR + "embed-html-assets.py"
  const HTML_DIR: string := "report/html/"
  const NOTE: string := " Generated by " + TOOL + " \U{2014} do not edit."
  const SOURCES: string := " Source: " + HTML_DIR + "app.css, " + HTML_DIR + "app.js"
  const PRAGMA: string := "#pragma once"
  const NAMESPACE: string := "namespace itrace::html"
  const PRELUDE: seq<string> := ["//" + NOTE, "//" + SOURCES, PRAGMA, "", NAMESPACE, "{"]
  const NAMESPACE_NOTE: string := " " + NAMESPACE
  const CLOSING: string := "} //" + NAMESPACE_NOTE

  function Wanted(assets: seq<Asset>): seq<Variable>
    requires AllUsable(assets)
  {
    seq(|assets|, i requires 0 <= i < |assets| => Variable(assets[i].name, assets[i].text.value))
  }

  /** The chunk loop of one asset. */
  method EmitChunks(parts: seq<string>, d: string, text: string) returns (r: seq<string>)
    ensures r == parts + Chunks(d, text)
  {
    r := parts;
    var start := 0;
    assert text[0..] == text;
    while start < |text|
      invariant 0 <= start
      invariant r + Chunks(d, text[Least(start, |text|)..]) == parts + Chunks(d, text)
      decreases |text| - start
    {
      var end := Least(start + CHUNK_SIZE, |text|);
      var left := text[start..];
      assert |left| <= CHUNK_SIZE ==> text[start..end] == left;
      assert |left| > CHUNK_SIZE ==> text[start..end] == left[..CHUNK_SIZE] && text[end..] == left[CHUNK_SIZE..];
      r := r + [Literal(d, text[start..end])];
      start := start + CHUNK_SIZE;
    }
  }

  function Least(a: nat, b: nat): nat {
    if a <= b then a else b
  }

  /** `main`: refuses a missing asset or one that holds its closing token; otherwise the emitted header reads back as
      exactly the assets. */
  method Embed(assets: seq<Asset>) returns (r: Option<string>)
    requires forall a <- assets :: Good(a)
    ensures r.Some? <==> forall a <- assets :: a.text.Some? && !Contains(a.text.value, Token(a.delim))
    ensures r.Some? ==> (AllUsable(assets)) && ReadHeader(r.value) == Some(Wanted(assets))
  {
    hide Find, AssetParts, ReadHeader, Wanted, Join, Contains, Delimits, Name, Token, Chunks;
    forall a <- assets | a.text.Some? ensures Usable(a) <==> !Contains(a.text.value, Token(a.delim)) {
      FindContains(Token(a.delim), a.text.value);
    }
    var parts := PRELUDE;
    for i := 0 to |assets|
      invariant AllUsable(assets[..i])
      invariant parts == PRELUDE + AllParts(assets[..i])
    {
      var a := assets[i];
      if a.text.None? || Find(Token(a.delim), a.text.value).Some? {
        return None;
      }
      assert assets[..i + 1][..i] == assets[..i];
      parts := AppendAsset(parts, a);
    }
    assert assets[..|assets|] == assets;
    HeaderReads(assets);
    return Some(Join(parts + [CLOSING, ""]));
  }

  method AppendAsset(parts: seq<string>, a: Asset) returns (r: seq<string>)
    requires Usable(a)
    ensures r == parts + AssetParts(a.name, a.delim, a.text.value)
  {
    hide Chunks, Find;
    r := parts + [DECL + a.name + " ="];
    r := EmitChunks(r, a.delim, a.text.value);
    r := r + [Terminator(a.text.value)];
    r := r + [""];
  }

  // --- reading back the header --------------------------------------------------------------------

  /** Every part on lines of its own. */
  function Flat(parts: seq<string>): string {
    if parts == [] then "" else parts[0] + "\n" + Flat(parts[1..])
  }

  lemma {:induction false} FlatConcat(a: seq<string>, b: seq<string>)
    ensures Flat(a + b) == Flat(a) + Flat(b)
  {
    if a == [] {
      assert a + b == b;
    } else {
      assert (a + b)[1..] == a[1..] + b;
      FlatConcat(a[1..], b);
    }
  }

  lemma {:induction false} JoinFlat(parts: seq<string>)
    ensures Join(parts + [""]) == Flat(parts)
  {
    if parts != [] {
      JoinFlat(parts[1..]);
      assert (parts + [""])[1..] == parts[1..] + [""];
    }
  }

  lemma FlatOne(p: string)
    ensures Flat([p]) == p + "\n"
  {
  }

  lemma TriviaSpace(c: char, s: string)
    requires IsSpace(c)
    ensures Trivia([c] + s) == Trivia(s)
  {
    assert ([c] + s)[1..] == s;
  }

  lemma {:induction false} AfterLineOf(line: string, rest: string)
    requires OneLine(line)
    ensures AfterLine(line + "\n" + rest) == rest
  {
    var s := line + "\n" + rest;
    if line == "" {
      assert s[1..] == rest;
    } else {
      assert s[1..] == line[1..] + "\n" + rest;
      AfterLineOf(line[1..], rest);
    }
  }

  lemma TriviaComment(line: string, rest: string)
    requires OneLine(line)
    ensures Trivia("//" + line + "\n" + rest) == Trivia(rest)
  {
    hide AfterLine;
    var s := "//" + line + "\n" + rest;
    assert s[2..] == line + "\n" + rest;
    AfterLineOf(line, rest);
    assert s[..2] == "//";
  }

  lemma ExpectSame(p: string, s: string, t: string)
    requires Trivia(s) == Trivia(t)
    ensures Expect(p, s) == Expect(p, t)
  {
  }

  lemma ExpectReads(p: string, rest: string)
    requires Visible(p)
    ensures Expect(p, p + rest) == Some(rest)
  {
    var s := p + rest;
    assert s[0] == p[0];
    assert |s| >= 2 ==> s[..2][0] == s[0];
    assert Trivia(s) == s;
    StartsConcat(p, rest);
  }

  lemma LiteralsSame(s: string, t: string, seen: bool)
    requires Trivia(s) == Trivia(t)
    ensures Literals(s, seen) == Literals(t, seen)
  {
  }

  lemma LiteralsEnd(rest: string)
    ensures Literals(";" + rest, true) == Some(("", rest))
  {
    ExpectReads(";", rest);
  }

  /** One raw literal in front of others. */
  lemma LiteralFirst(d: string, chunk: string, rest: string, seen: bool)
    requires Delimits(d) && !Contains(chunk, Token(d)) && Literals(rest, true).Some?
    ensures Literals(Literal(d, chunk) + "\n" + rest, seen)
      == Some((chunk + Literals(rest, true).value.0, Literals(rest, true).value.1))
  {
    hide RawLiteral, Contains, Delimits, Trivia, Quoted;
    var behind := d + "(" + chunk + Token(d) + ("\n" + rest);
    var s := Literal(d, chunk) + "\n" + rest;
    assert s == "R\"" + behind;
    RawReads(d, chunk, "\n" + rest);
    StartsConcat("R\"", behind);
    assert s[0] == 'R' && s[..1][0] == 'R';
    LiteralStays(s);
    TriviaSpace('\n', rest);
    LiteralsSame("\n" + rest, rest, true);
  }

  lemma LiteralStays(s: string)
    requires s != "" && s[0] == 'R'
    ensures Trivia(s) == s
  {
    TriviaStays(s);
  }

  /** Lexing the chunks and concatenating gives the text. */
  lemma {:induction false} ChunksRead(d: string, text: string, rest: string, seen: bool)
    requires Delimits(d) && !Contains(text, Token(d)) && (seen || text != "")
    ensures Literals(Flat(Chunks(d, text)) + (";" + rest), seen) == Some((text, rest))
    decreases |text|
  {
    hide Literals, Literal, Contains, Delimits, Token;
    var tail := ";" + rest;
    LiteralsEnd(rest);
    if text == "" {
      NoChunks(d);
      assert "" + tail == tail;
    } else if |text| <= CHUNK_SIZE {
      FlatOne(Literal(d, text));
      LiteralFirst(d, text, tail, seen);
      assert Flat(Chunks(d, text)) + tail == Literal(d, text) + "\n" + tail;
      assert text + "" == text;
    } else {
      var chunk, more := text[..CHUNK_SIZE], text[CHUNK_SIZE..];
      assert text == chunk + more;
      if Contains(chunk, Token(d)) {
        assert chunk == text[0..CHUNK_SIZE];
        ContainsSlice(text, Token(d), 0, CHUNK_SIZE);
      }
      if Contains(more, Token(d)) {
        assert more == text[CHUNK_SIZE..|text|];
        ContainsSlice(text, Token(d), CHUNK_SIZE, |text|);
      }
      ChunksRead(d, more, rest, true);
      LiteralFirst(d, chunk, Flat(Chunks(d, more)) + tail, seen);
      FlatConcat([Literal(d, chunk)], Chunks(d, more));
      FlatOne(Literal(d, chunk));
      assert Flat(Chunks(d, text)) + tail == Literal(d, chunk) + "\n" + (Flat(Chunks(d, more)) + tail);
    }
  }

  /** The initialiser of an asset, empty or not, reads back as its text. */
  lemma InitialiserReads(d: string, text: string, rest: string) returns (behind: string)
    requires Delimits(d) && !Contains(text, Token(d))
    ensures Literals(Flat(Chunks(d, text) + [Terminator(text), ""]) + rest, false) == Some((text, behind))
    ensures Trivia(behind) == Trivia(rest)
  {
    hide Contains, Delimits, Chunks, Token, Literals, Trivia, Flat;
    var end := Terminator(text);
    FlatConcat(Chunks(d, text), [end, ""]);
    FlatTwo(end);
    BlankTrivia(rest);
    if text != "" {
      behind := "\n\n" + rest;
      ChunksRead(d, text, behind, false);
      assert Flat(Chunks(d, text)) + (end + "\n\n") + rest == Flat(Chunks(d, text)) + (";" + behind);
    } else {
      behind := " // (empty asset)\n\n" + rest;
      NoChunks(d);
      EmptyReads(behind);
      EmptyAssetTrivia(rest);
      assert "" + (EMPTY_END + "\n\n") + rest == "\"\";" + behind;
    }
  }

  lemma FlatTwo(end: string)
    ensures Flat([end, ""]) == end + "\n\n"
  {
    assert [end, ""] == [end] + [""];
    FlatConcat([end], [""]);
  }

  lemma NoChunks(d: string)
    ensures Flat(Chunks(d, "")) == ""
  {
  }

  lemma EmptyReads(rest: string)
    ensures Literals("\"\";" + rest, false) == Some(("", rest))
  {
    hide Trivia;
    var s := "\"\";" + rest;
    LiteralsEnd(rest);
    assert s[1..] == "\"" + (";" + rest);
    assert s[1..][1..] == ";" + rest;
    assert Quoted(s[1..]) == Some(("", ";" + rest));
    assert s == "\"" + s[1..];
    assert Trivia(s) == s by { TriviaStays(s); }
    assert s[..1] == "\"" && s[..2][0] != 'R';
    assert "" + "" == "";
  }

  lemma TriviaStays(s: string)
    requires s != "" && !IsSpace(s[0]) && s[0] != '/'
    ensures Trivia(s) == s
  {
    assert |s| >= 2 ==> s[..2][0] == s[0];
  }

  lemma BlankTrivia(rest: string)
    ensures Trivia("\n\n" + rest) == Trivia(rest)
  {
    TriviaSpace('\n', rest);
    TriviaSpace('\n', "\n" + rest);
    assert "\n" + ("\n" + rest) == "\n\n" + rest;
  }

  lemma EmptyAssetTrivia(rest: string)
    ensures Trivia(" // (empty asset)\n\n" + rest) == Trivia("\n\n" + rest)
  {
    hide Trivia;
    var c := "// (empty asset)\n\n" + rest;
    TriviaSpace(' ', c);
    assert " // (empty asset)\n\n" + rest == " " + c;
    TriviaComment(" (empty asset)", "\n" + rest);
    assert c == "//" + " (empty asset)" + "\n" + ("\n" + rest);
    TriviaSpace('\n', "\n" + rest);
    assert "\n" + ("\n" + rest) == "\n\n" + rest;
  }

  lemma {:induction false} WordReads(name: string, rest: string)
    requires Name(name) && rest != "" && !Letter(rest[0])
    ensures Word(name + rest) == (name, rest)
  {
    if name == "" {
      assert name + rest == rest;
    } else {
      WordReads(name[1..], rest);
      assert (name + rest)[1..] == name[1..] + rest;
      assert name == [name[0]] + name[1..];
    }
  }

  lemma VariablesSame(s: string, t: string)
    requires Trivia(s) == Trivia(t)
    ensures Variables(s) == Variables(t)
  {
    hide Literals, Word, Trivia;
    ExpectSame("}", s, t);
    ExpectSame(DECL, s, t);
  }

  /** One definition in front of others. */
  lemma VariableFirst(name: string, d: string, text: string, rest: string)
    requires Name(name) && Delimits(d) && !Contains(text, Token(d)) && Variables(rest).Some?
    ensures Variables(Flat(AssetParts(name, d, text)) + rest)
      == Some([Variable(name, text)] + Variables(rest).value)
  {
    hide Contains, Delimits, Name, Token, Chunks, Literals, Word, Trivia, Expect;
    var init := Chunks(d, text) + [Terminator(text), ""];
    assert AssetParts(name, d, text) == [DECL + name + " ="] + init;
    FlatConcat([DECL + name + " ="], init);
    FlatOne(DECL + name + " =");
    var values := "\n" + (Flat(init) + rest);
    var s := Flat(AssetParts(name, d, text)) + rest;
    assert s == DECL + (name + (" =" + values));
    NotClosing(DECL, name + (" =" + values));
    ExpectReads(DECL, name + (" =" + values));
    WordReads(name, " =" + values);
    ExpectReads("=", values);
    TriviaSpace(' ', "=" + values);
    assert " " + ("=" + values) == " =" + values;
    ExpectSame("=", " =" + values, "=" + values);
    var behind := InitialiserReads(d, text, rest);
    TriviaSpace('\n', Flat(init) + rest);
    LiteralsSame(values, Flat(init) + rest, false);
    VariablesSame(behind, rest);
  }

  lemma NotClosing(p: string, rest: string)
    requires p != "" && !IsSpace(p[0]) && p[0] != '/' && p[0] != '}'
    ensures Expect("}", p + rest).None?
  {
    var s := p + rest;
    TriviaStays(s);
    assert s[..1][0] != '}';
  }

  lemma ClosingReads()
    ensures Variables(CLOSING + "\n") == Some([])
  {
    hide Trivia, Expect, Variables;
    CommentsAreLines();
    ClosingOf(NAMESPACE_NOTE);
    assert CLOSING + "\n" == "} //" + NAMESPACE_NOTE + "\n";
  }

  lemma ClosingOf(note: string)
    requires OneLine(note)
    ensures Variables("} //" + note + "\n") == Some([])
  {
    hide Trivia, Expect;
    var c := "//" + note + "\n" + "";
    var behind := " " + c;
    assert "} //" + note + "\n" == "}" + behind;
    ExpectReads("}", behind);
    TriviaSpace(' ', c);
    TriviaComment(note, "");
    TriviaNothing();
  }

  lemma TriviaNothing()
    ensures Trivia("") == ""
  {
  }

  lemma WantedNothing()
    ensures Wanted([]) == [] && Flat([]) == ""
  {
  }

  lemma WantedLast(assets: seq<Asset>)
    requires AllUsable(assets) && assets != []
    ensures var n := |assets| - 1;
      Wanted(assets) == Wanted(assets[..n]) + [Variable(assets[n].name, assets[n].text.value)]
  {
    hide Find;
  }

  lemma {:induction false} AllRead(assets: seq<Asset>, rest: string)
    requires AllUsable(assets) && forall a <- assets :: Good(a)
    requires Variables(rest).Some?
    ensures Variables(Flat(AllParts(assets)) + rest) == Some(Wanted(assets) + Variables(rest).value)
  {
    hide Variables, Name, Delimits, Find, AssetParts, Token, Contains, Wanted, Flat;
    if assets == [] {
      WantedNothing();
      assert Flat(AllParts(assets)) + rest == rest;
      assert Wanted(assets) + Variables(rest).value == Variables(rest).value;
    } else {
      var init, last := assets[..|assets| - 1], assets[|assets| - 1];
      var parts := AssetParts(last.name, last.delim, last.text.value);
      assert last in assets;
      FindContains(Token(last.delim), last.text.value);
      VariableFirst(last.name, last.delim, last.text.value, rest);
      AllRead(init, Flat(parts) + rest);
      FlatConcat(AllParts(init), parts);
      assert Flat(AllParts(assets)) + rest == Flat(AllParts(init)) + (Flat(parts) + rest);
      var more := Variables(rest).value;
      WantedLast(assets);
      assert Wanted(init) + ([Variable(last.name, last.text.value)] + more) == Wanted(assets) + more;
    }
  }

  lemma PreludeReads(rest: string)
    ensures ReadHeader(Flat(PRELUDE) + rest) == Variables(rest)
  {
    hide Trivia, Variables, Expect, IsSpace;
    CommentsAreLines();
    TokensAreVisible();
    FlatSix("//" + NOTE, "//" + SOURCES, PRAGMA, NAMESPACE, "{");
    PreludeOf(NOTE, SOURCES, PRAGMA, NAMESPACE, rest);
  }

  lemma CommentsAreLines()
    ensures OneLine(NOTE) && OneLine(SOURCES) && OneLine(NAMESPACE_NOTE)
  {
  }

  predicate Visible(p: string) {
    p != "" && !IsSpace(p[0]) && p[0] != '/'
  }

  lemma TokensAreVisible()
    ensures Visible(PRAGMA) && Visible(NAMESPACE) && Visible("{")
  {
  }

  lemma FlatSix(a: string, b: string, c: string, d: string, e: string)
    ensures Flat([a, b, c, "", d, e]) == a + "\n" + (b + "\n" + (c + "\n\n" + (d + "\n" + (e + "\n"))))
  {
    var p := [a, b, c, "", d, e];
    FlatConcat([a], [b, c, "", d, e]);
    FlatConcat([b], [c, "", d, e]);
    FlatConcat([c, ""], [d, e]);
    FlatConcat([c], [""]);
    FlatConcat([d], [e]);
    assert p == [a] + ([b] + (([c] + [""]) + ([d] + [e])));
  }

  lemma PreludeOf(note: string, sources: string, pragma: string, space: string, rest: string)
    requires OneLine(note) && OneLine(sources) && pragma == PRAGMA && space == NAMESPACE && Visible(pragma) && Visible(space)
    requires Visible("{")
    ensures ReadHeader("//" + note + "\n" + ("//" + sources + "\n" + (pragma + "\n\n" + (space + "\n" + ("{" + "\n")))) + rest)
      == Variables(rest)
  {
    hide Trivia, Variables, Expect, IsSpace;
    var c := "\n" + rest;
    var b := "\n" + ("{" + c);
    var a := "\n\n" + (space + b);
    var s := "//" + note + "\n" + ("//" + sources + "\n" + (pragma + a));
    assert s == "//" + note + "\n" + ("//" + sources + "\n" + (pragma + "\n\n" + (space + "\n" + ("{" + "\n")))) + rest;
    TriviaComment(note, "//" + sources + "\n" + (pragma + a));
    TriviaComment(sources, pragma + a);
    ExpectSame(pragma, s, pragma + a);
    ExpectReads(pragma, a);
    BlankTrivia(space + b);
    ExpectSame(space, a, space + b);
    ExpectReads(space, b);
    TriviaSpace('\n', "{" + c);
    ExpectSame("{", b, "{" + c);
    ExpectReads("{", c);
    TriviaSpace('\n', rest);
    VariablesSame(c, rest);
  }

  /** The header reads back as exactly the assets, in order. */
  lemma HeaderReads(assets: seq<Asset>)
    requires AllUsable(assets) && forall a <- assets :: Good(a)
    ensures ReadHeader(Join(PRELUDE + AllParts(assets) + [CLOSING, ""])) == Some(Wanted(assets))
  {
    hide Name, Delimits, Find, AllParts, ReadHeader, Variables, Join, Flat, Wanted;
    var parts := PRELUDE + AllParts(assets) + [CLOSING];
    assert PRELUDE + AllParts(assets) + [CLOSING, ""] == parts + [""];
    JoinFlat(parts);
    FlatConcat(PRELUDE + AllParts(assets), [CLOSING]);
    FlatConcat(PRELUDE, AllParts(assets));
    FlatOne(CLOSING);
    var rest := Flat(AllParts(assets)) + (CLOSING + "\n");
    assert Flat(parts) == Flat(PRELUDE) + rest;
    PreludeReads(rest);
    ClosingReads();
    AllRead(assets, CLOSING + "\n");
    assert Wanted(assets) + [] == Wanted(assets);
  }
}
