/** Reading back what was written: the laws of `set_notes` and `split_notes`. */
module NotesLaws {
  import opened Text
  import opened Frontmatter
  import opened Notes

  // --- newlines at the ends -----------------------------------------------------------------------

  lemma {:induction false} StripLength(s: string)
    ensures |LStripNewlines(s)| <= |s| && |RStripNewlines(s)| <= |s|
  {
    if s != "" {
      StripLength(s[1..]);
      StripLength(s[..|s| - 1]);
    }
  }

  lemma {:induction false} LStripStarts(s: string)
    ensures LStripNewlines(s) != "" ==> LStripNewlines(s)[0] != '\n'
  {
    if s != "" && s[0] == '\n' {
      LStripStarts(s[1..]);
    }
  }

  lemma {:induction false} RStripEnds(s: string)
    ensures var r := RStripNewlines(s);
      r <= s && (r != "" ==> r[|r| - 1] != '\n')
  {
    if s != "" && s[|s| - 1] == '\n' {
      RStripEnds(s[..|s| - 1]);
    }
  }

  lemma StoredEnds(notes: string)
    ensures var n := Stored(notes); n != "" ==> n[0] != '\n' && n[|n| - 1] != '\n'
  {
    var left := LStripNewlines(UnixNewlines(notes));
    LStripStarts(UnixNewlines(notes));
    RStripEnds(left);
  }

  lemma StripPadded(n: string)
    requires n != "" && n[0] != '\n' && n[|n| - 1] != '\n'
    ensures StripNewlines("\n" + n + "\n") == n
  {
    var padded := n + "\n";
    assert ("\n" + n + "\n")[1..] == padded;
    assert LStripNewlines(padded) == padded;
    assert padded[..|n|] == n;
    assert RStripNewlines(n) == n;
  }

  lemma {:induction false} StripKeepsBetween(s: string, i: nat, j: nat)
    requires i <= j < |s| && s[i] != '\n' && s[j] != '\n'
    ensures |StripNewlines(s)| > j - i
  {
    if s[0] == '\n' {
      StripKeepsBetween(s[1..], i - 1, j - 1);
    } else {
      RStripKeeps(s, j);
    }
  }

  lemma {:induction false} RStripKeeps(s: string, j: nat)
    requires j < |s| && s[j] != '\n'
    ensures |RStripNewlines(s)| > j
  {
    if s[|s| - 1] == '\n' {
      RStripKeeps(s[..|s| - 1], j);
    }
  }

  /** A text without its trailing newlines loses only empty lines. */
  lemma {:induction false} RStripLines(text: string) returns (k: nat)
    ensures 0 < k <= |Split(text)|
    ensures Split(RStripNewlines(text)) == Split(text)[..k] && AllBlank(Split(text)[k..])
  {
    hide Blank, Split;
    if text == "" || text[|text| - 1] != '\n' {
      k := |Split(text)|;
      assert Split(text)[..k] == Split(text);
    } else {
      var init := text[..|text| - 1];
      SplitNewline(init);
      assert text == init + "\n";
      k := RStripLines(init);
      assert Split(text)[..k] == Split(init)[..k];
      assert Split(text)[k..] == Split(init)[k..] + [""];
      assert Blank("") by { EmptyIsBlank(); }
    }
  }

  lemma EmptyIsBlank()
    ensures Blank("")
  {
  }

  lemma SplitNewline(s: string)
    ensures Split(s + "\n") == Split(s) + [""]
  {
    JoinSplit(s);
    JoinConcat(Split(s), [""]);
    assert s + "\n" + "" == s + "\n";
    SplitJoin(Split(s) + [""]);
  }

  // --- what the scanner sees ----------------------------------------------------------------------

  /** The place of a section: the heading, or the end of a body without one. */
  function Place(body: Lines): nat {
    FindHead(body, false)
  }

  /** A code fence is still open where a new section would go. */
  predicate Open(text: string) {
    var body := Body(Split(text));
    Fenced(body[..Place(body)], false)
  }

  function HasNotes(text: string): bool {
    Span(Body(Split(text))).Some?
  }

  /** The lines before the section after an edit. */
  function Kept(text: string): Lines {
    var lines := Split(text);
    if HasNotes(text) then PopBlank(lines[..|Prefix(lines)| + Place(Body(lines))])
    else Split(RStripNewlines(text))
  }

  /** The lines after the section. */
  function After(text: string): Lines {
    match Span(Body(Split(text)))
    case None => []
    case Some((h, e)) => Body(Split(text))[e..]
  }

  lemma PutJoined(text: string, notes: string)
    requires !Blank(Stored(notes))
    ensures NotesSet(text, notes) == Join(Kept(text) + [""] + Section(Stored(notes)) + [""] + After(text))
  {
    hide Delimiter, NoDelimiter, Blank, Join, Split, Fence, Heading, NotesHead, FindHead, FindEnd, Assemble, Prefix, Body, End;
    var section := Section(Stored(notes));
    PrefixThenBody(Split(text));
    var kept, after := Kept(text), After(text);
    if HasNotes(text) {
      AssembleUniform(kept, section, after);
      assert kept + [""] + (section + [""]) + after == kept + [""] + section + [""] + after;
    } else {
      assert kept + [""] + section + [""] + after == kept + [""] + section + [""];
    }
  }

  /** An edit that leaves a section. */
  lemma PutShape(text: string, notes: string)
    requires !Blank(Stored(notes))
    ensures Split(NotesSet(text, notes)) == Kept(text) + [""] + Section(Stored(notes)) + [""] + After(text)
  {
    hide Join, Split, NotesSet, Kept, After;
    PutJoined(text, notes);
    KeptOneLine(text);
    SplitJoin(Kept(text) + [""] + Section(Stored(notes)) + [""] + After(text));
  }

  lemma KeptOneLine(text: string)
    ensures AllOneLine(Kept(text)) && AllOneLine(After(text))
  {
    hide Blank, FindHead, FindEnd, OneLine, PopBlank, Split, Prefix, Body, End, Kept, After;
    var lines := Split(text);
    PrefixThenBody(lines);
    var k := KeptIsPrefix(text);
    assert AllOneLine(lines[..k]);
    AfterIsSuffix(text);
  }

  lemma AfterIsSuffix(text: string)
    ensures var lines, after := Split(text), After(text);
      |after| <= |lines| && after == lines[|lines| - |after|..]
  {
    hide FindHead, FindEnd, Split, Prefix, Body, End;
    PrefixThenBody(Split(text));
  }

  /** `Kept` is a prefix of the file that ends in the body and drops only blank lines. */
  lemma KeptIsPrefix(text: string) returns (k: nat)
    ensures var lines := Split(text);
      && k <= |Prefix(lines)| + Place(Body(lines)) <= |lines| && Kept(text) == lines[..k]
      && AllBlank(lines[k..|Prefix(lines)| + Place(Body(lines))])
  {
    hide Delimiter, NoDelimiter, Blank, Fence, Heading, NotesHead, FindHead, FindEnd, Split, PopBlank;
    var lines := Split(text);
    PrefixThenBody(lines);
    var place := |Prefix(lines)| + Place(Body(lines));
    if HasNotes(text) {
      k := PopBlankPops(lines[..place]);
      assert lines[..place][..k] == lines[..k] && lines[..place][k..] == lines[k..place];
    } else {
      k := RStripLines(text);
      assert lines[k..place] == lines[k..];
    }
  }

  lemma DelimiterNotBlank(line: string)
    requires Delimiter(line)
    ensures !Blank(line)
  {
    if Blank(line) {
      BlankLine(line);
    }
  }

  lemma KeptHoldsPrefix(text: string, k: nat)
    requires var lines := Split(text);
      var place := |Prefix(lines)| + Place(Body(lines));
      k <= place <= |lines| && AllBlank(lines[k..place])
    ensures |Prefix(Split(text))| <= k
  {
    hide Delimiter, NoDelimiter, Blank, FindHead, Split;
    var lines := Split(text);
    var place := |Prefix(lines)| + Place(Body(lines));
    forall i | k <= i < place ensures Blank(lines[i]) {
      assert lines[k..place][i - k] == lines[i];
    }
    if |Prefix(lines)| > 0 {
      DelimiterNotBlank(lines[|Prefix(lines)| - 1]);
    }
  }

  /** The lines before a section: the frontmatter, and body lines the scanner passes over. */
  lemma KeptScans(text: string) returns (b: Lines)
    ensures var lines := Split(text);
      && Kept(text) == Prefix(lines) + b && b <= Body(lines)
      && FindHead(b, false) == |b| && Fenced(b, false) == Open(text)
  {
    hide Blank, FindHead, Fenced, Split, Kept, Prefix, Body, End;
    var lines := Split(text);
    var body, start := Body(lines), |Prefix(lines)|;
    PrefixThenBody(lines);
    var k := KeptIsPrefix(text);
    KeptHoldsPrefix(text, k);
    var place := Place(body);
    b := body[..k - start];
    assert lines[..k] == lines[..start] + b;
    var blanks := lines[k..start + place];
    assert body[..place] == b + blanks;
    HeadIsFirst(body, false);
    FindHeadConcat(b, blanks, false);
    FencedConcat(b, blanks, false);
    BlankLines(blanks, Fenced(b, false));
  }

  /** Where a section is, no fence is open. */
  lemma NotesNotOpen(text: string)
    requires HasNotes(text)
    ensures !Open(text)
  {
    HeadIsFirst(Body(Split(text)), false);
  }

  /** New lines after a prefix of the body leave the frontmatter as it is. */
  lemma PrefixExtends(lines: Lines, b: Lines, t: Lines)
    requires lines != [] && b <= Body(lines) && t != [] && t[0] == ""
    requires Dangling(lines) ==> NoDelimiter(t)
    ensures var after := Prefix(lines) + b + t;
      Prefix(after) == Prefix(lines) && Body(after) == b + t
  {
    hide Delimiter, NoDelimiter, FindClose;
    var after := Prefix(lines) + b + t;
    var end := End(lines);
    if end.Some? {
      var e := end.value;
      assert after[1..e] == lines[1..e];
      EndUnique(after, e);
      assert after[e + 1..] == b + t;
    } else {
      assert after == b + t;
      NoFrontExtends(lines, b, t);
    }
  }

  lemma NoFrontExtends(lines: Lines, b: Lines, t: Lines)
    requires End(lines).None? && b <= lines && t != [] && t[0] == ""
    requires Dangling(lines) ==> NoDelimiter(t)
    ensures End(b + t).None?
  {
    hide Delimiter;
    var after := b + t;
    if b == [] {
      BlankLine("");
    } else {
      assert after[0] == lines[0];
      if Delimiter(lines[0]) {
        forall i | 0 <= i < |after[1..]| ensures !Delimiter(after[1..][i]) {
          if i + 1 < |b| {
            assert after[1..][i] == lines[1..][i];
          } else {
            assert after[1..][i] == t[i + 1 - |b|];
          }
        }
      }
    }
  }

  lemma {:induction false} RStripIsPrefix(s: string)
    ensures RStrip(s) <= s
  {
    if s != "" && IsSpace(s[|s| - 1]) {
      RStripIsPrefix(s[..|s| - 1]);
    }
  }

  lemma HashLine(line: string)
    requires line != "" && line[0] == '#'
    ensures !Fence(line)
    ensures "# " <= line ==> !NotesHead(line)
  {
    assert LStrip(line) == line;
    RStripIsPrefix(line);
    assert forall i | 0 <= i < |RStrip(line)| :: RStrip(line)[i] == line[i];
    assert "# " <= line ==> line[1] == ' ';
    assert NOTES[1] == '#';
  }

  lemma NotesLine()
    ensures NotesHead(NOTES) && !Fence(NOTES) && !Delimiter(NOTES)
  {
    HashLine(NOTES);
    assert LStrip(NOTES) == NOTES;
    assert RStrip(NOTES) == NOTES;
  }

  /** Lines the scanner passes over do not change what it finds. */
  lemma SpanPast(a: Lines, body: Lines)
    requires FindHead(a, false) == |a| && !Fenced(a, false)
    ensures InSpan(a + body) == InSpan(body)
  {
    hide FindHead, FindEnd, Fenced, Join, StripNewlines, Span, InSpan;
    FindHeadConcat(a, body, false);
    var h := FindHead(body, false);
    if h < |body| {
      var tail := body[h + 1..];
      assert (a + body)[|a| + h + 1..] == tail;
      SpanFrom(body, h, tail);
      SpanFrom(a + body, |a| + h, tail);
    } else {
      NoSpan(body);
      NoSpan(a + body);
    }
  }

  lemma UntitledSpan(body: Lines)
    ensures InSpan(Untitled(body)) == InSpan(body)
  {
    hide InSpan, FindHead, Fenced, DropBlank, Blank, Fence, NotesHead;
    var k := DropBlankDrops(body);
    var b := body[k..];
    BlankLines(body[..k], false);
    SpanPast(body[..k], b);
    assert body == body[..k] + b;
    if b != [] && "# " <= b[0] {
      PastTitle(b[0]);
      SpanPast([b[0]], b[1..]);
      assert b == [b[0]] + b[1..];
    }
  }

  lemma PastTitle(line: string)
    requires "# " <= line
    ensures FindHead([line], false) == 1 && !Fenced([line], false)
  {
    HashLine(line);
    assert [line][1..] == [];
  }

  lemma NotesRead(text: string)
    ensures NotesSplit(text).1 == InSpan(Body(Split(text)))
  {
    hide InSpan, Untitled;
    UntitledSpan(Body(Split(text)));
  }

  // --- what is read back --------------------------------------------------------------------------

  /** The stored notes hold no heading that would end them, and no fence that would swallow what follows. */
  predicate Readable(stored: string, after: Lines) {
    var ns := Split(stored);
    FindEnd(ns, false) == |ns| && (after == [] || !Fenced(ns, false))
  }

  /** What the scanner reads after the heading. */
  function Tail(stored: string, after: Lines): Lines {
    [""] + Split(stored) + [""] + after
  }

  lemma HeadOfSection(tail: Lines)
    ensures FindHead([""] + [NOTES] + tail, false) == 1
  {
    hide NotesHead, Fence;
    BlankLine("");
    NotesLine();
    assert ([""] + [NOTES] + tail)[1..] == [NOTES] + tail;
  }

  lemma SpanFrom(body: Lines, h: nat, tail: Lines)
    requires FindHead(body, false) == h < |body| && body[h + 1..] == tail
    ensures var e := FindEnd(tail, false);
      && Span(body) == Some((h, h + 1 + e)) && InSpan(body) == StripNewlines(Join(tail[..e]))
  {
    hide FindEnd, FindHead, Join, StripNewlines;
    var e := FindEnd(tail, false);
    assert body[h + 1..h + 1 + e] == body[h + 1..][..e];
  }

  lemma SpanOfSection(b: Lines, tail: Lines)
    requires FindHead(b, false) == |b| && !Fenced(b, false)
    ensures var e := FindEnd(tail, false);
      && Span(b + [""] + [NOTES] + tail) == Some((|b| + 1, |b| + 2 + e))
      && InSpan(b + [""] + [NOTES] + tail) == StripNewlines(Join(tail[..e]))
  {
    hide FindEnd, FindHead, Fenced, Join, StripNewlines, Span, InSpan;
    var x := b + [""] + [NOTES] + tail;
    var y := [""] + [NOTES] + tail;
    assert x == b + y;
    FindHeadConcat(b, y, false);
    HeadOfSection(tail);
    assert x[|b| + 2..] == tail;
    SpanFrom(x, |b| + 1, tail);
  }

  lemma TailEnd(stored: string, after: Lines)
    ensures var ns := Split(stored);
      FindEnd(Tail(stored, after), false) ==
      if FindEnd(ns, false) < |ns| then 1 + FindEnd(ns, false)
      else |ns| + 2 + FindEnd(after, Fenced(ns, false))
  {
    hide FindEnd, Fenced, Blank, Split;
    var ns := Split(stored);
    assert AllBlank([""]) by { EmptyIsBlank(); }
    BlankLines([""], false);
    BlankLines([""], Fenced(ns, false));
    FindEndConcat([""], ns + [""] + after, false);
    FindEndConcat(ns, [""] + after, false);
    FindEndConcat([""], after, Fenced(ns, false));
    assert ns + [""] + after == ns + ([""] + after);
    assert Tail(stored, after) == [""] + (ns + [""] + after);
  }

  lemma HeadingEnds(after: Lines, fenced: bool)
    requires after != [] && Heading(after[0])
    ensures fenced ==> FindEnd(after, fenced) > 0
    ensures !fenced ==> FindEnd(after, fenced) == 0
  {
    HashLine(after[0]);
  }

  lemma AfterHeading(text: string)
    ensures After(text) != [] ==> Heading(After(text)[0])
  {
    hide FindHead, FindEnd, Heading;
  }

  lemma JoinTail(stored: string)
    ensures Join([""] + Split(stored) + [""]) == "\n" + stored + "\n"
  {
    hide Join, Split;
    JoinSplit(stored);
    JoinOne("");
    JoinConcat([""], Split(stored) + [""]);
    JoinConcat(Split(stored), [""]);
    assert [""] + Split(stored) + [""] == [""] + (Split(stored) + [""]);
  }

  /** Readable notes come back as they were stored. */
  lemma ReadsBack(stored: string, after: Lines)
    requires stored != "" && stored[0] != '\n' && stored[|stored| - 1] != '\n'
    requires Readable(stored, after) && (after != [] ==> Heading(after[0]))
    ensures FindEnd(Tail(stored, after), false) == |Split(stored)| + 2
    ensures StripNewlines(Join(Tail(stored, after)[..|Split(stored)| + 2])) == stored
  {
    hide FindEnd, Fenced, Heading, Split, Join, StripNewlines;
    TailEnd(stored, after);
    if after != [] {
      HeadingEnds(after, false);
    } else {
      EndOfNothing(Fenced(Split(stored), false));
    }
    assert Tail(stored, after)[..|Split(stored)| + 2] == [""] + Split(stored) + [""];
    JoinTail(stored);
    StripPadded(stored);
  }

  lemma EndOfNothing(fenced: bool)
    ensures FindEnd([], fenced) == 0
  {
  }

  /** A heading in the notes cuts them short. */
  lemma CutShort(stored: string, after: Lines)
    requires FindEnd(Split(stored), false) < |Split(stored)| && stored != ""
    ensures StripNewlines(Join(Tail(stored, after)[..FindEnd(Tail(stored, after), false)])) != stored
  {
    hide FindEnd, Fenced, Split, Join;
    TailEnd(stored, after);
    var ns := Split(stored);
    var j := FindEnd(ns, false);
    assert Tail(stored, after)[..1 + j] == [""] + ns[..j];
    JoinSplit(stored);
    if j == 0 {
      assert [""] + ns[..j] == [""];
      JoinOne("");
    } else {
      JoinConcat([""], ns[..j]);
      JoinOne("");
      JoinConcat(ns[..j], ns[j..]);
      assert ns == ns[..j] + ns[j..];
      var cut := Join(ns[..j]);
      assert "" + "\n" + cut == "\n" + cut;
      StripDropsFirst(cut);
    }
  }

  lemma StripDropsFirst(s: string)
    ensures |StripNewlines("\n" + s)| <= |s|
  {
    assert ("\n" + s)[1..] == s;
    StripLength(s);
    StripLength(LStripNewlines(s));
  }

  /** An unclosed fence in the notes makes what follows part of them. */
  lemma RunsOn(stored: string, after: Lines)
    requires stored != "" && stored[0] != '\n'
    requires FindEnd(Split(stored), false) == |Split(stored)| && Fenced(Split(stored), false)
    requires after != [] && Heading(after[0])
    ensures StripNewlines(Join(Tail(stored, after)[..FindEnd(Tail(stored, after), false)])) != stored
  {
    hide FindEnd, Fenced, Split, Join, StripNewlines, Heading;
    TailEnd(stored, after);
    HeadingEnds(after, true);
    var ns := Split(stored);
    var k := FindEnd(after, true);
    var first := [""] + ns + [""];
    assert Tail(stored, after)[..|ns| + 2 + k] == first + after[..k];
    JoinConcat(first, after[..k]);
    JoinTail(stored);
    HeadingStart(after[0]);
    JoinFirst(after[..k]);
    var all := "\n" + stored + "\n" + "\n" + Join(after[..k]);
    assert all[1] == stored[0];
    assert all[|stored| + 3] == Join(after[..k])[0];
    StripKeepsBetween(all, 1, |stored| + 3);
  }

  lemma HeadingStart(line: string)
    requires Heading(line)
    ensures line != "" && line[0] == '#'
  {
  }

  lemma JoinFirst(lines: Lines)
    requires lines != [] && lines[0] != ""
    ensures Join(lines) != "" && Join(lines)[0] == lines[0][0]
  {
  }

  lemma HeadInFence(b: Lines, ns: Lines)
    requires FindHead(b, false) == |b| && Fenced(b, false)
    ensures var x := b + [""] + [NOTES] + [""] + ns + [""];
      var h := FindHead(ns, true);
      FindHead(x, false) == if h == |ns| then |x| else |b| + 3 + h
  {
    hide FindHead, Fenced;
    var skipped := b + [""] + [NOTES] + [""];
    FencePast(b);
    FindHeadConcat(skipped, ns + [""], false);
    FindHeadConcat(ns, [""], true);
    assert AllBlank([""]) by { EmptyIsBlank(); }
    BlankLines([""], Fenced(ns, true));
    assert b + [""] + [NOTES] + [""] + ns + [""] == skipped + (ns + [""]);
  }

  /** In an open fence the heading is not seen: at most a later part of the notes is read. */
  lemma LostInFence(b: Lines, stored: string)
    requires FindHead(b, false) == |b| && Fenced(b, false) && stored != ""
    ensures InSpan(b + [""] + [NOTES] + Tail(stored, [])) != stored
  {
    hide FindEnd, FindHead, Fenced, Join, StripNewlines, Split, Span, InSpan, NotesHead, Fence;
    var ns := Split(stored);
    var x := b + [""] + [NOTES] + Tail(stored, []);
    assert x == b + [""] + [NOTES] + [""] + ns + [""];
    HeadInFence(b, ns);
    var h := FindHead(ns, true);
    if h == |ns| {
      NoSpan(x);
    } else {
      HeadIsFirst(ns, true);
      NotesHeadLong(ns[h]);
      var head := |b| + 3 + h;
      var e := SpanEnd(x, head);
      assert x[head + 1..e] == (ns[h + 1..] + [""])[..e - head - 1];
      PartIsShorter(stored, h, e - head - 1);
    }
  }

  lemma NoSpan(body: Lines)
    requires FindHead(body, false) == |body|
    ensures InSpan(body) == ""
  {
  }

  lemma SpanEnd(body: Lines, h: nat) returns (e: nat)
    requires FindHead(body, false) == h < |body|
    ensures h < e <= |body| && InSpan(body) == StripNewlines(Join(body[h + 1..e]))
  {
    hide FindHead, FindEnd, StripNewlines, Join;
    e := Span(body).value.1;
  }

  lemma FencePast(b: Lines)
    requires FindHead(b, false) == |b| && Fenced(b, false)
    ensures var skipped := b + [""] + [NOTES] + [""];
      FindHead(skipped, false) == |skipped| && Fenced(skipped, false)
  {
    hide Fence, NotesHead;
    var pad := [""] + [NOTES] + [""];
    BlankLine("");
    NotesLine();
    assert pad[1..] == [NOTES] + [""];
    assert pad[1..][1..] == [""];
    assert [""][1..] == [];
    assert FindHead(pad[1..], true) == 2 && Fenced(pad[1..], true);
    assert FindHead(pad, true) == 3 && Fenced(pad, true);
    FindHeadConcat(b, pad, false);
    FencedConcat(b, pad, false);
    assert b + [""] + [NOTES] + [""] == b + pad;
  }

  lemma {:induction false} LStripLength(s: string)
    ensures |LStrip(s)| <= |s|
  {
    if s != "" && IsSpace(s[0]) {
      LStripLength(s[1..]);
    }
  }

  lemma NotesHeadLong(line: string)
    requires NotesHead(line)
    ensures |line| >= 8
  {
    LStripLength(line);
    RStripIsPrefix(LStrip(line));
  }

  lemma PrefixJoin(lines: Lines, k: nat)
    requires k <= |lines|
    ensures |Join(lines[..k])| <= |Join(lines)|
  {
    if 0 < k < |lines| {
      JoinConcat(lines[..k], lines[k..]);
      assert lines == lines[..k] + lines[k..];
    } else {
      assert k == |lines| ==> lines[..k] == lines;
    }
  }

  lemma PartIsShorter(stored: string, h: nat, k: nat)
    requires stored != "" && h < |Split(stored)| && |Split(stored)[h]| >= 8 && k <= |Split(stored)| - h
    ensures StripNewlines(Join((Split(stored)[h + 1..] + [""])[..k])) != stored
  {
    hide Split, Join;
    var ns := Split(stored);
    var rest := ns[h + 1..];
    JoinSplit(stored);
    var part := Join((rest + [""])[..k]);
    PrefixJoin(rest + [""], k);
    StripLength(part);
    StripLength(LStripNewlines(part));
    JoinOne("");
    if rest == [] {
      assert rest + [""] == [""];
    } else {
      JoinConcat(rest, [""]);
      JoinOne(ns[h]);
      JoinConcat([ns[h]], rest);
      assert ns[h..] == [ns[h]] + rest;
      if h > 0 {
        JoinConcat(ns[..h], ns[h..]);
        assert ns == ns[..h] + ns[h..];
      } else {
        assert ns[h..] == ns;
      }
    }
  }

  lemma PutBody(text: string, notes: string) returns (b: Lines)
    requires !Blank(Stored(notes))
    requires Dangling(Split(text)) ==> NoDelimiter(Split(Stored(notes)))
    ensures var lines, after := Split(text), Split(NotesSet(text, notes));
      && Kept(text) == Prefix(lines) + b && Prefix(after) == Prefix(lines)
      && Body(after) == b + [""] + [NOTES] + Tail(Stored(notes), After(text))
      && FindHead(b, false) == |b| && Fenced(b, false) == Open(text)
  {
    hide Delimiter, NoDelimiter, Blank, FindHead, FindEnd, Fenced, Join, Split, NotesSet, Kept, Open, Prefix, Body, After, Stored;
    var lines := Split(text);
    var stored := Stored(notes);
    b := KeptScans(text);
    PutShape(text, notes);
    var t := [""] + [NOTES] + Tail(stored, After(text));
    assert Kept(text) + [""] + Section(stored) + [""] + After(text) == Prefix(lines) + b + t;
    if Dangling(lines) {
      NoDelimiterAdded(text, stored);
    }
    PrefixExtends(lines, b, t);
    assert b + t == b + [""] + [NOTES] + Tail(stored, After(text));
  }

  lemma NoDelimiterAdded(text: string, stored: string)
    requires Dangling(Split(text)) && NoDelimiter(Split(stored))
    ensures NoDelimiter([""] + [NOTES] + Tail(stored, After(text)))
  {
    hide Delimiter, FindHead, FindEnd, Split, After;
    BlankLine("");
    NotesLine();
    AfterInside(text);
  }

  // --- an unclosed frontmatter that the notes close -----------------------------------------------

  /** How many lines are delimiters. */
  function Delims(lines: Lines): nat {
    if lines == [] then 0 else (if Delimiter(lines[0]) then 1 else 0) + Delims(lines[1..])
  }

  lemma {:induction false} DelimsConcat(a: Lines, b: Lines)
    ensures Delims(a + b) == Delims(a) + Delims(b)
  {
    hide Delimiter;
    if a == [] {
      assert a + b == b;
    } else {
      assert (a + b)[1..] == a[1..] + b;
      DelimsConcat(a[1..], b);
    }
  }

  lemma {:induction false} DelimsNone(lines: Lines)
    ensures Delims(lines) == 0 <==> NoDelimiter(lines)
  {
    hide Delimiter;
    if lines != [] {
      DelimsNone(lines[1..]);
      assert lines == [lines[0]] + lines[1..];
    }
  }

  lemma DelimsOne(line: string)
    ensures Delims([line]) == if Delimiter(line) then 1 else 0
  {
    assert [line][1..] == [];
  }

  lemma DelimsSlice(lines: Lines, i: nat, j: nat)
    requires i <= j <= |lines|
    ensures Delims(lines[i..j]) <= Delims(lines)
  {
    hide Delims;
    assert lines == lines[..i] + (lines[i..j] + lines[j..]);
    DelimsConcat(lines[..i], lines[i..j] + lines[j..]);
    DelimsConcat(lines[i..j], lines[j..]);
  }

  lemma {:induction false} DelimsLStrip(s: string)
    ensures Delims(Split(LStripNewlines(s))) == Delims(Split(s))
  {
    hide Delims, Delimiter, Split;
    if s != "" && s[0] == '\n' {
      DelimsLStrip(s[1..]);
      SplitPrepend("", s[1..]);
      assert s == "" + "\n" + s[1..];
      DelimsConcat([""], Split(s[1..]));
      DelimsOne("");
      EmptyIsNoDelimiter();
    }
  }

  lemma DelimsJoined(lines: Lines)
    requires AllOneLine(lines)
    ensures Delims(Split(Join(lines))) == Delims(lines)
  {
    hide Delims, Split, Join;
    if lines == [] {
      NothingJoined();
    } else {
      SplitJoin(lines);
    }
  }

  /** Joining lines and stripping newlines makes no delimiter. */
  lemma DelimsStripped(lines: Lines)
    requires AllOneLine(lines)
    ensures Delims(Split(StripNewlines(Join(lines)))) <= Delims(lines)
  {
    hide Delims, Delimiter, Split, Join, LStripNewlines, RStripNewlines;
    var s := Join(lines);
    DelimsJoined(lines);
    DelimsLStrip(s);
    var k := RStripLines(LStripNewlines(s));
    DelimsSlice(Split(LStripNewlines(s)), 0, k);
  }

  lemma NothingJoined()
    ensures Delims(Split(Join([]))) == Delims([])
  {
    SplitOneLine("");
    DelimsOne("");
    EmptyIsNoDelimiter();
  }

  lemma DanglingStart(text: string)
    requires Dangling(Split(text))
    ensures var lines := Split(text);
      && Prefix(lines) == [] && Body(lines) == lines && 0 < Place(lines) <= |lines|
      && Kept(text) != [] && Delims(Kept(text)) == 1 && Delims(After(text)) == 0
  {
    hide Delims, FindHead, FindEnd, Split, Kept, After, Delimiter, NotesHead, Blank;
    var lines := Split(text);
    HeadIsFirst(lines, false);
    if FindHead(lines, false) == 0 {
      HeadIsNoDelimiter(lines[0]);
    }
    var k := KeptIsPrefix(text);
    if k == 0 {
      assert lines[0..Place(lines)][0] == lines[0];
      DelimiterNotBlank(lines[0]);
    }
    assert lines[..k] == [lines[0]] + lines[1..k];
    DelimsConcat([lines[0]], lines[1..k]);
    DelimsOne(lines[0]);
    var inner := lines[1..k];
    forall i | 0 <= i < |inner| ensures !Delimiter(inner[i]) {
      assert inner[i] == lines[1..][i];
    }
    DelimsNone(inner);
    AfterInside(text);
    DelimsNone(After(text));
  }

  lemma HeadIsNoDelimiter(line: string)
    requires NotesHead(line)
    ensures !Delimiter(line)
  {
  }

  lemma AfterInside(text: string)
    requires Dangling(Split(text))
    ensures NoDelimiter(After(text))
  {
    hide Delimiter, FindHead, FindEnd, Split;
    var lines, after := Split(text), After(text);
    if Span(lines).Some? {
      var e := Span(lines).value.1;
      assert forall i | 0 <= i < |after| :: after[i] == lines[1..][e + i - 1];
    }
  }

  /** The first delimiter of the notes closes the frontmatter, and is one less in the body. */
  lemma NotesClose(text: string, notes: string)
    requires !Blank(Stored(notes)) && Dangling(Split(text)) && !NoDelimiter(Split(Stored(notes)))
    ensures var after := Split(NotesSet(text, notes));
      Delims(Prefix(after)) == 2 && Delims(Body(after)) < Delims(Split(Stored(notes)))
  {
    hide Delims, FindHead, FindEnd, Split, Kept, After, Delimiter, NotesHead, Blank, NotesSet, Stored, NoDelimiter, Dangling;
    var stored := Stored(notes);
    var ns, lines := Split(stored), Split(NotesSet(text, notes));
    DanglingStart(text);
    PutShape(text, notes);
    DelimsOfSection(stored);
    var section := [""] + Section(stored) + [""];
    assert lines == Kept(text) + (section + After(text));
    DelimsConcat(Kept(text), section + After(text));
    DelimsConcat(section, After(text));
    assert Delims(lines) == 1 + Delims(ns);
    DelimsNone(ns);
    FirstStays(text);
    assert lines[0] == Split(text)[0];
    ClosedPrefix(lines);
  }

  lemma FirstStays(text: string)
    requires Kept(text) != [] && Dangling(Split(text))
    ensures Kept(text)[0] == Split(text)[0] && Delimiter(Kept(text)[0])
  {
    hide Split, Kept, Delimiter;
    var k := KeptIsPrefix(text);
  }

  lemma DelimsOfSection(stored: string)
    requires !Blank(stored)
    ensures Delims([""] + Section(stored) + [""]) == Delims(Split(stored))
  {
    hide Delims, Delimiter, Split, Blank;
    var ns := Split(stored);
    assert [""] + Section(stored) + [""] == [""] + ([NOTES] + ([""] + (ns + [""])));
    DelimsConcat([""], [NOTES] + ([""] + (ns + [""])));
    DelimsConcat([NOTES], [""] + (ns + [""]));
    DelimsConcat([""], ns + [""]);
    DelimsConcat(ns, [""]);
    DelimsOne("");
    DelimsOne(NOTES);
    EmptyIsNoDelimiter();
    NotesLine();
  }

  /** A frontmatter has two delimiters. */
  lemma PrefixDelims(lines: Lines)
    requires End(lines).Some?
    ensures Delims(Prefix(lines)) == 2 && Delims(lines) == 2 + Delims(Body(lines))
  {
    hide Delims, Delimiter, FindClose;
    var e := End(lines).value;
    assert Prefix(lines) == [lines[0]] + (lines[1..e] + [lines[e]]);
    DelimsConcat([lines[0]], lines[1..e] + [lines[e]]);
    DelimsConcat(lines[1..e], [lines[e]]);
    DelimsOne(lines[0]);
    DelimsOne(lines[e]);
    DelimsNone(lines[1..e]);
    assert lines == Prefix(lines) + Body(lines);
    DelimsConcat(Prefix(lines), Body(lines));
  }

  lemma ClosedPrefix(lines: Lines)
    requires lines != [] && Delimiter(lines[0]) && Delims(lines) >= 2
    ensures Delims(Prefix(lines)) == 2 && Delims(Body(lines)) == Delims(lines) - 2
  {
    hide Delims, Delimiter, FindClose;
    assert lines == [lines[0]] + lines[1..];
    DelimsConcat([lines[0]], lines[1..]);
    DelimsOne(lines[0]);
    DelimsNone(lines[1..]);
    PrefixDelims(lines);
  }

  lemma DelimsInSpan(body: Lines)
    requires AllOneLine(body)
    ensures Delims(Split(InSpan(body))) <= Delims(body)
  {
    hide Delims, FindHead, FindEnd, Split, StripNewlines, Join;
    match Span(body)
    case None =>
      assert Delims(Split("")) == 0 by { NothingJoined(); JoinNothing(); }
    case Some((h, e)) =>
      DelimsStripped(body[h + 1..e]);
      DelimsSlice(body, h + 1, e);
  }

  lemma JoinNothing()
    ensures Join([]) == "" && Delims([]) == 0
  {
  }

  /** The notes that lie in the frontmatter now are not read back. */
  lemma ClosedIsNotRead(text: string, notes: string)
    requires !Blank(Stored(notes)) && Dangling(Split(text)) && !NoDelimiter(Split(Stored(notes)))
    ensures NotesSplit(NotesSet(text, notes)).1 != Stored(notes)
  {
    hide Delims, Split, NotesSet, Stored, NoDelimiter, Dangling, Blank, NotesSplit, InSpan, Body;
    var put := NotesSet(text, notes);
    NotesClose(text, notes);
    NotesRead(put);
    BodyLines(put);
    DelimsInSpan(Body(Split(put)));
  }

  lemma BodyLines(text: string)
    ensures AllOneLine(Body(Split(text)))
  {
    hide Split, OneLine;
  }

  // --- put, then get ------------------------------------------------------------------------------

  /** The notes hold no line that closes a frontmatter the text leaves open. */
  predicate LeavesFront(text: string, stored: string) {
    Dangling(Split(text)) ==> NoDelimiter(Split(stored))
  }

  /** Notes that leave a section are read back exactly when no fence is open where it goes, the notes neither hold a
      heading of their own nor leave a fence open before the rest, and they do not close a frontmatter that the text
      leaves open. */
  lemma PutThenGetFilled(text: string, notes: string)
    requires !Blank(Stored(notes))
    ensures NotesSplit(NotesSet(text, notes)).1 == Stored(notes)
      <==> !Open(text) && Readable(Stored(notes), After(text)) && LeavesFront(text, Stored(notes))
  {
    hide Delimiter, NoDelimiter, FindHead, FindEnd, Fenced, Join, Split, NotesSet, Open, Body, After, Stored, StripNewlines, InSpan, Heading, NotesSplit, Dangling;
    var stored, after := Stored(notes), After(text);
    if !LeavesFront(text, stored) {
      ClosedIsNotRead(text, notes);
    } else {
      var b := PutBody(text, notes);
      NotesRead(NotesSet(text, notes));
      StoredEnds(notes);
      AfterHeading(text);
      if Open(text) {
        NotOpenAfter(text);
        LostInFence(b, stored);
      } else {
        SpanOfSection(b, Tail(stored, after));
        if Readable(stored, after) {
          ReadsBack(stored, after);
        } else if FindEnd(Split(stored), false) < |Split(stored)| {
          CutShort(stored, after);
        } else {
          RunsOn(stored, after);
        }
      }
    }
  }

  /** Clearing takes one section out, and leaves the lines around it. */
  lemma ClearShape(text: string, notes: string)
    requires Blank(Stored(notes))
    ensures !HasNotes(text) ==> NotesSet(text, notes) == text
    ensures HasNotes(text) ==> Split(NotesSet(text, notes)) == Kept(text) + [""] + After(text)
  {
    hide Blank, FindHead, FindEnd, Split, Join, Body, Prefix, Stored, PopBlank, Heading, Assemble;
    PrefixThenBody(Split(text));
    if HasNotes(text) {
      var kept, after := Kept(text), After(text);
      AfterHeading(text);
      AssembleUniform(kept, [], after);
      assert kept + [""] + [] + after == kept + [""] + after;
      KeptOneLine(text);
      SplitJoin(kept + [""] + after);
    }
  }

  /** What is read after clearing: the next section behind the one that was cleared, if there is one. */
  lemma ClearThenGet(text: string, notes: string)
    requires Blank(Stored(notes))
    ensures NotesSplit(NotesSet(text, notes)).1 == if HasNotes(text) then InSpan(After(text)) else ""
  {
    hide Blank, FindHead, FindEnd, Fenced, Split, NotesSet, Open, Body, Prefix, After, Stored, InSpan, NotesSplit, Kept, Dangling, NoDelimiter, HasNotes;
    var put := NotesSet(text, notes);
    ClearShape(text, notes);
    NotesRead(put);
    if HasNotes(text) {
      var lines := Split(text);
      var b := KeptScans(text);
      NotesNotOpen(text);
      var t := [""] + After(text);
      assert Kept(text) + [""] + After(text) == Prefix(lines) + b + t;
      if Dangling(lines) {
        NoDelimiterBehind(text);
      }
      PrefixExtends(lines, b, t);
      FindHeadConcat(b, [""], false);
      FencedConcat(b, [""], false);
      assert AllBlank([""]) by { EmptyIsBlank(); }
      BlankLines([""], false);
      assert b + t == (b + [""]) + After(text);
      SpanPast(b + [""], After(text));
    } else {
      NothingToRead(text);
    }
  }

  lemma NoDelimiterBehind(text: string)
    requires Dangling(Split(text))
    ensures NoDelimiter([""] + After(text))
  {
    hide Delimiter, After, Split;
    BlankLine("");
    AfterInside(text);
  }

  lemma NothingToRead(text: string)
    requires !HasNotes(text)
    ensures InSpan(Body(Split(text))) == ""
  {
    hide Split, Body, FindHead, FindEnd;
  }

  /** The stored notes, as the text lets them be read: between closed fences, whole, and outside the frontmatter. */
  predicate ReadBack(text: string, stored: string) {
    if Blank(stored) then stored == (if HasNotes(text) then InSpan(After(text)) else "")
    else !Open(text) && Readable(stored, After(text)) && LeavesFront(text, stored)
  }

  /** `split_notes` after `set_notes` gives the stored notes, exactly when they can be read there, or, for notes that clear
      the section, when they are empty and no section with text follows the one that was cleared. */
  lemma PutThenGet(text: string, notes: string)
    ensures NotesSplit(NotesSet(text, notes)).1 == Stored(notes) <==> ReadBack(text, Stored(notes))
  {
    hide Blank, Open, Readable, LeavesFront, HasNotes, InSpan, After, Stored, NotesSet, NotesSplit;
    if Blank(Stored(notes)) {
      ClearThenGet(text, notes);
    } else {
      PutThenGetFilled(text, notes);
    }
  }

  /** A text with two sections of notes. */
  function TwoSections(a: string, b: string): Lines {
    [NOTES, "", a, NOTES, "", b]
  }

  predicate PlainLine(line: string) {
    OneLine(line) && line != "" && !Fence(line) && !Heading(line)
  }

  /** Clearing the first of two sections makes the second one the notes. */
  lemma SecondSectionIsRead(a: string, b: string)
    requires PlainLine(a) && PlainLine(b)
    ensures NotesSplit(NotesSet(Join(TwoSections(a, b)), "")).1 == b
  {
    hide Join, Split, NotesSet, NotesSplit, InSpan, After, FindHead, FindEnd, Fence, Heading, NotesHead, Stored, OneLine;
    var lines := TwoSections(a, b);
    var text := Join(lines);
    NotesLine();
    BlankLine("") by { EmptyIsBlank(); }
    assert OneLine(NOTES) && OneLine("") by { ShortLines(); }
    SplitJoin(lines);
    assert lines[0] == NOTES;
    assert End(lines).None?;
    assert Blank(Stored("")) by { NothingStored(); }
    ClearThenGet(text, "");
    NotesEnd(a, [NOTES, "", b]);
    FirstIsHead(["", a] + [NOTES, "", b]);
    assert lines[0 + 1..] == ["", a] + [NOTES, "", b];
    assert lines == [NOTES] + (["", a] + [NOTES, "", b]);
    SpanFrom(lines, 0, ["", a] + [NOTES, "", b]);
    AfterIs(text, lines, 0, 3);
    assert lines[3..] == [NOTES, "", b];
    assert [NOTES, "", b] == [NOTES] + ["", b];
    NotesEnd(b, []);
    assert ["", b] + [] == ["", b];
    FirstIsHead(["", b]);
    assert [NOTES, "", b][1..] == ["", b];
    SpanFrom([NOTES, "", b], 0, ["", b]);
    assert ["", b][..2] == ["", b];
    PaddedRead(b);
  }

  lemma ShortLines()
    ensures OneLine(NOTES) && OneLine("")
  {
  }

  lemma NothingStored()
    ensures Blank(Stored(""))
  {
  }

  lemma FirstIsHead(tail: Lines)
    ensures FindHead([NOTES] + tail, false) == 0
  {
    hide NotesHead, Fence;
    NotesLine();
  }

  lemma AfterIs(text: string, lines: Lines, h: nat, e: nat)
    requires Split(text) == lines && End(lines).None? && Span(lines) == Some((h, e))
    ensures HasNotes(text) && After(text) == lines[e..]
  {
    hide Split, FindHead, FindEnd, FindClose, Delimiter;
  }

  lemma NotesEnd(line: string, rest: Lines)
    requires PlainLine(line) && (rest != [] ==> rest[0] == NOTES)
    ensures FindEnd(["", line] + rest, false) == 2
  {
    hide Heading, Fence;
    var tail := ["", line] + rest;
    BlankLine("") by { EmptyIsBlank(); }
    assert tail[1..] == [line] + rest && tail[1..][1..] == rest;
    NotesLine();
    assert Heading(NOTES) by { NotesIsHeading(); }
    assert FindEnd(rest, false) == 0;
    assert FindEnd([line] + rest, false) == 1;
  }

  lemma NotesIsHeading()
    ensures Heading(NOTES)
  {
  }

  lemma PaddedRead(b: string)
    requires OneLine(b) && b != ""
    ensures StripNewlines(Join(["", b])) == b
  {
    hide RStripNewlines;
    assert ["", b][1..] == [b];
    assert Join(["", b]) == "" + "\n" + b;
    assert Join(["", b])[1..] == b;
    assert b[0] != '\n';
    assert LStripNewlines("\n" + b) == b;
    KeepsEnd(b);
  }

  lemma KeepsEnd(b: string)
    requires OneLine(b)
    ensures RStripNewlines(b) == b
  {
  }

  lemma NotOpenAfter(text: string)
    requires Open(text)
    ensures After(text) == []
  {
    if HasNotes(text) {
      NotesNotOpen(text);
    }
  }

  /** Notes that open with a heading are not read back. */
  lemma HeadingIsNotRead(text: string, notes: string)
    requires !Blank(Stored(notes)) && "# " <= Split(Stored(notes))[0]
    ensures NotesSplit(NotesSet(text, notes)).1 != Stored(notes)
  {
    hide Stored, NotesSet, NotesSplit, Split, Blank, Open, After, LeavesFront;
    PutThenGetFilled(text, notes);
    HashLine(Split(Stored(notes))[0]);
  }
}
