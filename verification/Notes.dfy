/** The `## Notes` section of an issue file: `_notes_span`, `split_notes` and `set_notes` of
    tools/issues/issues_serve.py. */
module Notes {
  import opened Text
  import opened Frontmatter

  const NOTES: string := "## Notes"

  // --- the scanner --------------------------------------------------------------------------------

  predicate Fence(line: string) {
    "```" <= LStrip(line)
  }

  predicate NotesHead(line: string) {
    Strip(line) == NOTES
  }

  /** `re.match(r"#{1,2} ", line)` */
  predicate Heading(line: string) {
    "# " <= line || "## " <= line
  }

  /** Whether a fence is open after `lines`. */
  predicate Fenced(lines: Lines, fenced: bool) {
    if lines == [] then fenced else Fenced(lines[1..], fenced != Fence(lines[0]))
  }

  /** The first notes heading outside a fence, or the length. */
  function FindHead(lines: Lines, fenced: bool): (n: nat)
    ensures n <= |lines|
  {
    if lines == [] then 0
    else if Fence(lines[0]) then 1 + FindHead(lines[1..], !fenced)
    else if !fenced && NotesHead(lines[0]) then 0
    else 1 + FindHead(lines[1..], fenced)
  }

  /** The first heading of level one or two outside a fence, or the length. */
  function FindEnd(lines: Lines, fenced: bool): (n: nat)
    ensures n <= |lines|
    ensures n < |lines| ==> Heading(lines[n])
  {
    if lines == [] then 0
    else if Fence(lines[0]) then 1 + FindEnd(lines[1..], !fenced)
    else if !fenced && Heading(lines[0]) then 0
    else 1 + FindEnd(lines[1..], fenced)
  }

  /** The notes section of a body: its heading, and the index after it. */
  function Span(body: Lines): (r: Option<(nat, nat)>)
    ensures r.Some? ==> r.value.0 < r.value.1 <= |body|
    ensures r.Some? && r.value.1 < |body| ==> Heading(body[r.value.1])
  {
    var h := FindHead(body, false);
    if h == |body| then None
    else
      var e := FindEnd(body[h + 1..], false);
      assert e < |body[h + 1..]| ==> body[h + 1..][e] == body[h + 1 + e];
      Some((h, h + 1 + e))
  }

  lemma HeadStep(lines: Lines, i: nat, fenced: bool)
    requires i < |lines|
    ensures FindHead(lines[i..], fenced) ==
      if !Fence(lines[i]) && !fenced && NotesHead(lines[i]) then 0
      else 1 + FindHead(lines[i + 1..], fenced != Fence(lines[i]))
  {
    assert lines[i..][1..] == lines[i + 1..];
  }

  lemma EndStep(lines: Lines, i: nat, fenced: bool)
    requires i < |lines|
    ensures FindEnd(lines[i..], fenced) ==
      if !Fence(lines[i]) && !fenced && Heading(lines[i]) then 0
      else 1 + FindEnd(lines[i + 1..], fenced != Fence(lines[i]))
  {
    assert lines[i..][1..] == lines[i + 1..];
  }

  /** The loop of `_notes_span` from line `i` on. */
  function Scan(lines: Lines, i: nat, fenced: bool, head: Option<nat>): Option<(nat, nat)>
    requires i <= |lines|
    decreases |lines| - i
  {
    if i == |lines| then (if head.Some? then Some((head.value, i)) else None)
    else if Fence(lines[i]) then Scan(lines, i + 1, !fenced, head)
    else if !fenced && head.None? && NotesHead(lines[i]) then Scan(lines, i + 1, fenced, Some(i))
    else if !fenced && head.Some? && Heading(lines[i]) then Some((head.value, i))
    else Scan(lines, i + 1, fenced, head)
  }

  lemma {:induction false} ScanEnds(lines: Lines, i: nat, fenced: bool, head: nat)
    requires i <= |lines|
    ensures Scan(lines, i, fenced, Some(head)) == Some((head, i + FindEnd(lines[i..], fenced)))
    decreases |lines| - i
  {
    if i < |lines| {
      EndStep(lines, i, fenced);
      ScanEnds(lines, i + 1, fenced != Fence(lines[i]), head);
    }
  }

  lemma {:induction false} ScanStarts(lines: Lines, i: nat, fenced: bool, h: nat)
    requires i <= h <= |lines| && h == i + FindHead(lines[i..], fenced)
    ensures h == |lines| ==> Scan(lines, i, fenced, None) == None
    ensures h < |lines| ==> Scan(lines, i, fenced, None) == Some((h, h + 1 + FindEnd(lines[h + 1..], false)))
    decreases |lines| - i
  {
    if i < |lines| {
      HeadStep(lines, i, fenced);
      if h == i {
        ScanEnds(lines, i + 1, fenced, i);
      } else {
        ScanStarts(lines, i + 1, fenced != Fence(lines[i]), h);
      }
    }
  }

  lemma ScanIsSpan(lines: Lines, start: nat)
    requires start <= |lines|
    ensures Scan(lines, start, false, None) == match Span(lines[start..])
      case None => None
      case Some(s) => Some((start + s.0, start + s.1))
  {
    hide FindHead, FindEnd, Scan;
    var h := start + FindHead(lines[start..], false);
    ScanStarts(lines, start, false, h);
    if h < |lines| {
      assert lines[start..][h - start + 1..] == lines[h + 1..];
    }
  }

  /** `_notes_span` */
  method NotesSpan(lines: Lines, start: nat) returns (r: Option<(nat, nat)>)
    requires start <= |lines|
    ensures r == match Span(lines[start..])
      case None => None
      case Some(s) => Some((start + s.0, start + s.1))
  {
    ScanIsSpan(lines, start);
    var fenced, head: Option<nat> := false, None;
    for i := start to |lines|
      invariant Scan(lines, i, fenced, head) == Scan(lines, start, false, None)
    {
      var line := lines[i];
      if Fence(line) {
        fenced := !fenced;
      } else if !fenced && head.None? && NotesHead(line) {
        head := Some(i);
      } else if !fenced && head.Some? && Heading(line) {
        return Some((head.value, i));
      }
    }
    return if head.Some? then Some((head.value, |lines|)) else None;
  }

  lemma {:induction false} FencedConcat(a: Lines, b: Lines, fenced: bool)
    ensures Fenced(a + b, fenced) == Fenced(b, Fenced(a, fenced))
  {
    if a == [] {
      assert a + b == b;
    } else {
      assert (a + b)[1..] == a[1..] + b;
      FencedConcat(a[1..], b, fenced != Fence(a[0]));
    }
  }

  lemma {:induction false} FindHeadConcat(a: Lines, b: Lines, fenced: bool)
    ensures FindHead(a + b, fenced) ==
      if FindHead(a, fenced) < |a| then FindHead(a, fenced) else |a| + FindHead(b, Fenced(a, fenced))
  {
    if a == [] {
      assert a + b == b;
    } else {
      assert (a + b)[1..] == a[1..] + b;
      FindHeadConcat(a[1..], b, fenced != Fence(a[0]));
    }
  }

  lemma {:induction false} FindEndConcat(a: Lines, b: Lines, fenced: bool)
    ensures FindEnd(a + b, fenced) ==
      if FindEnd(a, fenced) < |a| then FindEnd(a, fenced) else |a| + FindEnd(b, Fenced(a, fenced))
  {
    if a == [] {
      assert a + b == b;
    } else {
      assert (a + b)[1..] == a[1..] + b;
      FindEndConcat(a[1..], b, fenced != Fence(a[0]));
    }
  }

  lemma {:induction false} StripOfBlank(s: string)
    requires Blank(s)
    ensures LStrip(s) == ""
  {
    if s != "" {
      StripOfBlank(s[1..]);
    }
  }

  lemma BlankLine(line: string)
    requires Blank(line)
    ensures !Fence(line) && !NotesHead(line) && !Heading(line) && !Delimiter(line)
  {
    StripOfBlank(line);
    assert line != "" ==> line[0] != '#';
  }

  lemma {:induction false} BlankLines(lines: Lines, fenced: bool)
    requires AllBlank(lines)
    ensures Fenced(lines, fenced) == fenced
    ensures FindHead(lines, fenced) == |lines| && FindEnd(lines, fenced) == |lines|
  {
    if lines != [] {
      BlankLine(lines[0]);
      BlankLines(lines[1..], fenced);
    }
  }

  /** Where the section starts, the fences before it are closed and hold no other heading. */
  lemma {:induction false} HeadIsFirst(body: Lines, fenced: bool)
    ensures var h := FindHead(body, fenced);
      && FindHead(body[..h], fenced) == h
      && (h < |body| ==> !Fenced(body[..h], fenced) && NotesHead(body[h]) && !Fence(body[h]))
  {
    if body != [] {
      var h := FindHead(body, fenced);
      var f := fenced != Fence(body[0]);
      HeadIsFirst(body[1..], f);
      if h > 0 {
        assert body[..h][1..] == body[1..][..h - 1];
      }
    }
  }

  // --- what the scanner looks for -----------------------------------------------------------------

  /** A fence is three backquotes behind whitespace or nothing. */
  lemma FenceIs(line: string)
    ensures Fence(line) <==> exists a, rest :: Blank(a) && line == a + ("```" + rest)
  {
    hide IsSpace, LStrip, Blank;
    if Fence(line) {
      var a := LStripIs(line);
      var rest := LStrip(line)[3..];
      assert LStrip(line) == "```" + rest;
    }
    if exists a, rest :: Blank(a) && line == a + ("```" + rest) {
      var a, rest :| Blank(a) && line == a + ("```" + rest);
      assert !IsSpace('`') by { BackquoteIsNoSpace(); }
      LStripPadded(a, "```" + rest);
    }
  }

  lemma BackquoteIsNoSpace()
    ensures !IsSpace('`')
  {
  }

  /** The notes heading is `## Notes` with nothing but whitespace around it. */
  lemma NotesHeadIs(line: string)
    ensures NotesHead(line) <==> Padded(line, "## Notes")
  {
    StripIs(line, "## Notes");
  }

  /** A heading that ends the notes is one or two hashes and a space, at the start of the line. */
  lemma HeadingIs(line: string)
    ensures Heading(line) <==>
      || (|line| >= 2 && line[0] == '#' && line[1] == ' ')
      || (|line| >= 3 && line[0] == '#' && line[1] == '#' && line[2] == ' ')
  {
    assert |line| >= 2 ==> line[..2] == [line[0], line[1]];
    assert |line| >= 3 ==> line[..3] == [line[0], line[1], line[2]];
  }

  function Fences(lines: Lines): nat {
    if lines == [] then 0 else (if Fence(lines[0]) then 1 else 0) + Fences(lines[1..])
  }

  /** A fence is open after an odd number of fence lines. */
  lemma {:induction false} FencedIsParity(lines: Lines, fenced: bool)
    ensures Fenced(lines, fenced) == ((Fences(lines) % 2 == 1) != fenced)
  {
    hide Fence;
    if lines != [] {
      FencedIsParity(lines[1..], fenced != Fence(lines[0]));
    }
  }

  /** Line `i` is no fence, and no fence is open before it. */
  predicate Unfenced(lines: Lines, i: nat, fenced: bool)
    requires i < |lines|
  {
    !Fence(lines[i]) && !Fenced(lines[..i], fenced)
  }

  lemma UnfencedStep(lines: Lines, i: nat, fenced: bool)
    requires 0 < i < |lines|
    ensures Unfenced(lines, i, fenced) <==> Unfenced(lines[1..], i - 1, fenced != Fence(lines[0]))
  {
    hide Fence;
    assert lines[..i][1..] == lines[1..][..i - 1];
  }

  /** The heading found is the first unfenced one. */
  lemma {:induction false} HeadExactly(lines: Lines, fenced: bool, i: nat)
    requires i < |lines| && i <= FindHead(lines, fenced)
    ensures i == FindHead(lines, fenced) <==> Unfenced(lines, i, fenced) && NotesHead(lines[i])
    decreases |lines|
  {
    hide Fence, NotesHead;
    if i > 0 {
      HeadExactly(lines[1..], fenced != Fence(lines[0]), i - 1);
      UnfencedStep(lines, i, fenced);
    }
  }

  /** The end found is the first unfenced heading of level one or two. */
  lemma {:induction false} EndExactly(lines: Lines, fenced: bool, i: nat)
    requires i < |lines| && i <= FindEnd(lines, fenced)
    ensures i == FindEnd(lines, fenced) <==> Unfenced(lines, i, fenced) && Heading(lines[i])
    decreases |lines|
  {
    hide Fence, Heading;
    if i > 0 {
      EndExactly(lines[1..], fenced != Fence(lines[0]), i - 1);
      UnfencedStep(lines, i, fenced);
    }
  }

  // --- reading and writing the section ------------------------------------------------------------

  function RStripNewlines(s: string): string {
    if s == "" || s[|s| - 1] != '\n' then s else RStripNewlines(s[..|s| - 1])
  }

  function LStripNewlines(s: string): string {
    if s == "" || s[0] != '\n' then s else LStripNewlines(s[1..])
  }

  /** `s.strip("\n")` */
  function StripNewlines(s: string): string {
    RStripNewlines(LStripNewlines(s))
  }

  /** `s.replace("\r\n", "\n")` */
  function UnixNewlines(s: string): string {
    if |s| < 2 then s
    else if s[0] == '\r' && s[1] == '\n' then "\n" + UnixNewlines(s[2..])
    else [s[0]] + UnixNewlines(s[1..])
  }

  /** `"\r\n".join(lines)` */
  function JoinCarriage(lines: Lines): string {
    if lines == [] then "" else if |lines| == 1 then lines[0] else lines[0] + ("\r\n" + JoinCarriage(lines[1..]))
  }

  lemma UnixStep(s: string)
    requires |s| >= 2 && !(s[0] == '\r' && s[1] == '\n')
    ensures UnixNewlines(s) == [s[0]] + UnixNewlines(s[1..])
  {
  }

  lemma UnixPair(rest: string)
    ensures UnixNewlines("\r\n" + rest) == "\n" + UnixNewlines(rest)
  {
    assert ("\r\n" + rest)[2..] == rest;
  }

  lemma {:induction false} UnixPast(line: string, rest: string)
    requires OneLine(line)
    ensures UnixNewlines(line + ("\r\n" + rest)) == line + ("\n" + UnixNewlines(rest))
    decreases |line|
  {
    hide UnixNewlines;
    var tail, done := "\r\n" + rest, "\n" + UnixNewlines(rest);
    var s := line + tail;
    UnixPair(rest);
    if line == "" {
      assert s == tail && line + done == done;
    } else {
      UnixPast(line[1..], rest);
      assert s[1..] == line[1..] + tail && s[0] == line[0];
      assert s[1] == if |line| == 1 then '\r' else line[1];
      UnixStep(s);
      assert line == [line[0]] + line[1..];
      assert [line[0]] + (line[1..] + done) == line + done;
    }
  }

  lemma {:induction false} UnixOneLine(line: string)
    requires OneLine(line)
    ensures UnixNewlines(line) == line
  {
    if |line| >= 2 {
      UnixOneLine(line[1..]);
      assert line[1] in line;
    }
  }

  /** Lines with carriage returns become lines without, and no other character changes. */
  lemma {:induction false} UnixJoins(lines: Lines)
    requires AllOneLine(lines)
    ensures UnixNewlines(JoinCarriage(lines)) == Join(lines)
  {
    hide UnixNewlines, OneLine;
    if lines == [] {
      assert UnixNewlines("") == "" by { UnixNothing(); }
    } else if |lines| == 1 {
      UnixOneLine(lines[0]);
    } else {
      UnixJoins(lines[1..]);
      UnixPast(lines[0], JoinCarriage(lines[1..]));
      assert lines[0] + ("\n" + Join(lines[1..])) == lines[0] + "\n" + Join(lines[1..]);
    }
  }

  lemma UnixNothing()
    ensures UnixNewlines("") == ""
  {
  }

  predicate Newlines(s: string) {
    forall i | 0 <= i < |s| :: s[i] == '\n'
  }

  lemma {:induction false} LStripOff(a: string, s: string)
    requires Newlines(a) && (s != "" ==> s[0] != '\n')
    ensures LStripNewlines(a + s) == s
  {
    if a == "" {
      assert a + s == s;
    } else {
      LStripOff(a[1..], s);
      assert (a + s)[1..] == a[1..] + s;
    }
  }

  lemma {:induction false} RStripOff(s: string, b: string)
    requires Newlines(b) && (s != "" ==> s[|s| - 1] != '\n')
    ensures RStripNewlines(s + b) == s
  {
    if b == "" {
      assert s + b == s;
    } else {
      var n := |b| - 1;
      RStripOff(s, b[..n]);
      assert (s + b)[..|s| + n] == s + b[..n];
    }
  }

  /** Stripping takes the newlines at both ends, and nothing else. */
  lemma StripOff(a: string, s: string, b: string)
    requires Newlines(a) && Newlines(b) && s != "" && s[0] != '\n' && s[|s| - 1] != '\n'
    ensures StripNewlines(a + s + b) == s
  {
    hide LStripNewlines, RStripNewlines, Newlines;
    assert a + s + b == a + (s + b);
    LStripOff(a, s + b);
    RStripOff(s, b);
  }

  /** The notes as `set_notes` stores them. */
  function Stored(notes: string): string {
    StripNewlines(UnixNewlines(notes))
  }

  function Section(stored: string): Lines {
    if Blank(stored) then [] else [NOTES, ""] + Split(stored)
  }

  /** The file around a section that was there before. */
  function Assemble(before: Lines, section: Lines, after: Lines): Lines {
    if after != [] && !AllBlank(after) then
      if section != [] then before + [""] + section + [""] + after else before + [""] + after
    else
      if section != [] then before + [""] + section + [""] else before + [""]
  }

  /** Notes typed with carriage returns are stored with newlines alone between their lines. */
  lemma StoredIs(lines: Lines)
    requires AllOneLine(lines) && lines != [] && lines[0] != "" && lines[|lines| - 1] != ""
    ensures Stored(JoinCarriage(lines)) == Join(lines)
  {
    hide UnixNewlines, Join, StripNewlines, AllOneLine;
    UnixJoins(lines);
    JoinEnds(lines);
    NothingToStrip(Join(lines));
  }

  lemma NothingToStrip(s: string)
    requires s != "" && s[0] != '\n' && s[|s| - 1] != '\n'
    ensures StripNewlines(s) == s
  {
    hide StripNewlines;
    StripOff("", s, "");
    assert "" + s + "" == s;
  }

  lemma {:induction false} JoinEnds(lines: Lines)
    requires AllOneLine(lines) && lines != [] && lines[0] != "" && lines[|lines| - 1] != ""
    ensures Join(lines) != "" && Join(lines)[0] != '\n' && Join(lines)[|Join(lines)| - 1] != '\n'
  {
    hide Join;
    var n := |lines| - 1;
    assert lines[0][0] in lines[0] && lines[n][|lines[n]| - 1] in lines[n];
    JoinOne(lines[0]);
    JoinOne(lines[n]);
    if n == 0 {
      assert lines == [lines[0]];
    } else {
      JoinConcat(lines[..n], [lines[n]]);
      assert lines == lines[..n] + [lines[n]];
      JoinConcat([lines[0]], lines[1..]);
      assert lines == [lines[0]] + lines[1..];
    }
  }

  function NotesSet(text: string, notes: string): string {
    var lines := Split(text);
    var section := Section(Stored(notes));
    var start := |Prefix(lines)|;
    match Span(lines[start..])
    case None =>
      if section == [] then text
      else Join(Split(RStripNewlines(text)) + [""] + section + [""])
    case Some((h, e)) =>
      Join(Assemble(PopBlank(lines[..start + h]), section, lines[start + e..]))
  }

  function InSpan(body: Lines): string {
    match Span(body)
    case None => ""
    case Some((h, e)) => StripNewlines(Join(body[h + 1..e]))
  }

  function OutOfSpan(body: Lines): Lines {
    match Span(body)
    case None => body
    case Some((h, e)) => body[..h] + body[e..]
  }

  /** The body without leading blank lines and without the title. */
  function Untitled(body: Lines): Lines {
    var b := DropBlank(body);
    if b != [] && "# " <= b[0] then b[1..] else b
  }

  /** `split_notes`: the body without the section, and the notes. */
  function NotesSplit(text: string): (string, string) {
    var body := Untitled(Body(Split(text)));
    (StripNewlines(Join(OutOfSpan(body))), InSpan(body))
  }

  lemma PrefixThenBody(lines: Lines)
    ensures |Prefix(lines)| <= |lines| && lines[|Prefix(lines)|..] == Body(lines)
    ensures lines[..|Prefix(lines)|] == Prefix(lines)
  {
    hide Delimiter, NoDelimiter;
  }

  /** Drops the trailing whitespace-only lines, one at a time. */
  method PopTrailing(lines: Lines) returns (r: Lines)
    ensures r == PopBlank(lines)
  {
    r := lines;
    while r != [] && Blank(r[|r| - 1])
      invariant PopBlank(r) == PopBlank(lines)
    {
      r := r[..|r| - 1];
    }
  }

  /** `set_notes` */
  method SetNotes(text: string, notes: string) returns (r: string)
    ensures r == NotesSet(text, notes)
  {
    hide Delimiter, NoDelimiter, Blank, Span, Split, Join, PopBlank, Assemble, Stored, RStripNewlines, FindClose;
    var stored := Stored(notes);
    var lines := Split(text);
    var start := match End(lines) case None => 0 case Some(end) => end + 1;
    assert start == |Prefix(lines)|;
    var span := NotesSpan(lines, start);
    var section := if Blank(stored) then [] else [NOTES, ""] + Split(stored);
    if span.None? {
      if section == [] {
        return text;
      }
      return Join(Split(RStripNewlines(text)) + [""] + section + [""]);
    }
    var before, after := lines[..span.value.0], lines[span.value.1..];
    before := PopTrailing(before);
    return Join(Assemble(before, section, after));
  }

  /** What follows a section starts with a heading, so only its presence matters. */
  lemma AssembleUniform(before: Lines, section: Lines, after: Lines)
    requires after != [] ==> Heading(after[0])
    ensures Assemble(before, section, after) ==
      before + [""] + (if section == [] then [] else section + [""]) + after
  {
    hide Heading, Blank;
    if after != [] && AllBlank(after) {
      BlankLine(after[0]);
      assert false;
    }
    var padded := if section == [] then [] else section + [""];
    if after == [] {
      assert before + [""] + padded + after == before + [""] + padded;
    }
    if section == [] {
      assert before + [""] + padded == before + [""];
    } else {
      assert before + [""] + padded == before + [""] + section + [""];
    }
  }
}
