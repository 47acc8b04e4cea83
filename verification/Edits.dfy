/** Frontmatter edits and notes edits of one file touch disjoint regions: `edit` of
    tools/issues/issues_serve.py may apply them in either order. */
module Edits {
  import opened Text
  import opened Frontmatter
  import opened Notes
  import opened NotesLaws
  import opened NotesEdits

  /** Drops trailing empty lines. */
  function DropEmpty(lines: Lines): Lines {
    if lines == [] || lines[|lines| - 1] != "" then lines else DropEmpty(lines[..|lines| - 1])
  }

  lemma {:induction false} DropEmptyPrefix(p: Lines, x: Lines)
    requires p != [] && p[|p| - 1] != ""
    ensures DropEmpty(p + x) == p + DropEmpty(x)
  {
    if x == [] {
      assert p + x == p;
    } else {
      var k := |x| - 1;
      assert (p + x)[..|p| + k] == p + x[..k];
      DropEmptyPrefix(p, x[..k]);
      if x[k] != "" {
        assert (p + x)[|p + x| - 1] == x[k];
      }
    }
  }

  lemma {:induction false} PopBlankPrefix(p: Lines, x: Lines)
    requires p != [] && !Blank(p[|p| - 1])
    ensures PopBlank(p + x) == p + PopBlank(x)
  {
    hide Blank;
    if x == [] {
      assert p + x == p;
    } else {
      var k := |x| - 1;
      assert (p + x)[..|p| + k] == p + x[..k];
      PopBlankPrefix(p, x[..k]);
    }
  }

  /** The lines of a text without its trailing newlines. */
  lemma {:induction false} SplitRStrip(text: string)
    ensures var lines := DropEmpty(Split(text));
      Split(RStripNewlines(text)) == if lines == [] then [""] else lines
  {
    hide Split;
    if text == "" {
      SplitOneLine("");
      assert [""][..0] == [];
    } else if text[|text| - 1] == '\n' {
      var init := text[..|text| - 1];
      SplitRStrip(init);
      SplitNewline(init);
      assert text == init + "\n";
      assert (Split(init) + [""])[..|Split(init)|] == Split(init);
    } else {
      LastLineFilled(text);
    }
  }

  lemma LastLineFilled(text: string)
    requires text != "" && text[|text| - 1] != '\n'
    ensures Split(text)[|Split(text)| - 1] != ""
  {
    hide Split, Join;
    var lines := Split(text);
    var n := |lines| - 1;
    JoinSplit(text);
    JoinOne(lines[n]);
    if n == 0 {
      assert lines == [lines[n]];
    } else {
      assert lines == lines[..n] + [lines[n]];
      JoinConcat(lines[..n], [lines[n]]);
    }
  }

  /** `set_notes` below a frontmatter changes the body alone, in a way that depends on the body alone. */
  function BodyPut(body: Lines, section: Lines): Lines {
    match Span(body)
    case None => if section == [] then body else DropEmpty(body) + [""] + section + [""]
    case Some((h, e)) => PopBlank(body[..h]) + [""] + (if section == [] then [] else section + [""]) + body[e..]
  }

  lemma PrefixEndsFilled(lines: Lines)
    requires End(lines).Some?
    ensures Prefix(lines) != [] && !Blank(Prefix(lines)[|Prefix(lines)| - 1])
  {
    hide Delimiter, NoDelimiter;
    DelimiterNotBlank(lines[End(lines).value]);
  }

  lemma FilledNotEmpty(line: string)
    requires !Blank(line)
    ensures line != ""
  {
  }

  lemma StrippedBelow(text: string)
    requires End(Split(text)).Some?
    ensures Split(RStripNewlines(text)) == Prefix(Split(text)) + DropEmpty(Body(Split(text)))
  {
    hide Blank, Split, Prefix, Body, DropEmpty, End, RStripNewlines;
    var lines := Split(text);
    var p, body := Prefix(lines), Body(lines);
    PrefixEndsFilled(lines);
    FilledNotEmpty(p[|p| - 1]);
    PrefixThenBody(lines);
    assert lines == p + body;
    SplitRStrip(text);
    DropEmptyPrefix(p, body);
  }

  lemma AddedBelow(text: string, section: Lines)
    requires End(Split(text)).Some?
    ensures Join(Split(RStripNewlines(text)) + [""] + section + [""])
      == Join(Prefix(Split(text)) + (DropEmpty(Body(Split(text))) + [""] + section + [""]))
  {
    hide Split, Join, Prefix, Body, DropEmpty, End, RStripNewlines;
    var p, rest := Prefix(Split(text)), DropEmpty(Body(Split(text)));
    StrippedBelow(text);
    assert p + rest + [""] + section + [""] == p + (rest + [""] + section + [""]);
  }

  lemma ReplacedBelow(lines: Lines, section: Lines, h: nat, e: nat)
    requires End(lines).Some? && Span(Body(lines)) == Some((h, e)) && h < e <= |Body(lines)|
    requires e < |Body(lines)| ==> Heading(Body(lines)[e])
    ensures var start := |Prefix(lines)|;
      start + e <= |lines|
      && Assemble(PopBlank(lines[..start + h]), section, lines[start + e..])
        == Prefix(lines) + BodyPut(Body(lines), section)
  {
    hide Blank, Prefix, Body, Span, PopBlank, End, Assemble, Heading;
    var p, body := Prefix(lines), Body(lines);
    PrefixEndsFilled(lines);
    PrefixThenBody(lines);
    assert lines == p + body;
    assert lines[..|p| + h] == p + body[..h];
    assert lines[|p| + e..] == body[e..];
    PopBlankPrefix(p, body[..h]);
    AssembleUniform(p + PopBlank(body[..h]), section, body[e..]);
    var padded := if section == [] then [] else section + [""];
    assert p + PopBlank(body[..h]) + [""] + padded + body[e..] == p + (PopBlank(body[..h]) + [""] + padded + body[e..]);
  }

  lemma NotesSetBody(text: string, notes: string)
    requires End(Split(text)).Some?
    ensures NotesSet(text, notes) ==
      Join(Prefix(Split(text)) + BodyPut(Body(Split(text)), Section(Stored(notes))))
  {
    hide Blank, Split, Join, Prefix, Body, Span, PopBlank, DropEmpty, Section, Stored, End, Assemble, Heading;
    var lines := Split(text);
    var section := Section(Stored(notes));
    PrefixThenBody(lines);
    match Span(Body(lines))
    case None =>
      if section == [] {
        JoinSplit(text);
        assert Prefix(lines) + Body(lines) == lines;
      } else {
        AddedBelow(text, section);
      }
    case Some((h, e)) =>
      ReplacedBelow(lines, section, h, e);
  }

  lemma BodyPutOneLine(text: string, stored: string)
    ensures AllOneLine(BodyPut(Body(Split(text)), Section(stored)))
  {
    hide Split, Span, PopBlank, DropEmpty, OneLine, End, Section;
    var body := Body(Split(text));
    assert AllOneLine([""]) by { EmptyOneLine(); }
    SectionOneLine(stored);
    match Span(body)
    case None => DropEmptyOneLine(body);
    case Some((h, e)) => var k := PopBlankPops(body[..h]);
  }

  lemma EmptyOneLine()
    ensures OneLine("")
  {
  }

  lemma {:induction false} DropEmptyOneLine(lines: Lines)
    requires AllOneLine(lines)
    ensures AllOneLine(DropEmpty(lines))
  {
    if lines != [] && lines[|lines| - 1] == "" {
      DropEmptyOneLine(lines[..|lines| - 1]);
    }
  }

  lemma Rebodied(lines: Lines, rest: Lines)
    requires End(lines).Some?
    ensures var after := Prefix(lines) + rest;
      End(after).Some? && Front(after) == Front(lines) && Body(after) == rest
  {
    hide Delimiter, NoDelimiter;
    var e := End(lines).value;
    assert Prefix(lines) + rest == [lines[0]] + Front(lines) + [lines[e]] + rest;
    Framed(lines[0], Front(lines), lines[e], rest);
  }

  /** Setting notes keeps the frontmatter and edits the body. */
  lemma NotesSetParts(text: string, notes: string)
    requires End(Split(text)).Some?
    ensures var lines, after := Split(text), Split(NotesSet(text, notes));
      Front(after) == Front(lines) && Body(after) == BodyPut(Body(lines), Section(Stored(notes)))
  {
    hide Split, Join, Section, Stored, BodyPut, NotesSet, Prefix, Body, Front, End, OneLine;
    var lines := Split(text);
    var put := BodyPut(Body(lines), Section(Stored(notes)));
    NotesSetBody(text, notes);
    BodyPutOneLine(text, Stored(notes));
    PrefixThenBody(lines);
    PrefixEndsFilled(lines);
    assert AllOneLine(Prefix(lines) + put);
    SplitJoin(Prefix(lines) + put);
    Rebodied(lines, put);
  }

  lemma CommuteFramed(text: string, updates: seq<Field>, notes: string)
    requires Dict(updates) && End(Split(text)).Some? && StaysFramed(text, updates)
    ensures NotesSet(FieldsSet(text, updates), notes) == FieldsSet(NotesSet(text, notes), updates)
  {
    hide Split, Join, Section, Stored, BodyPut, SpliceAll, NotesSet, Prefix, Body, Front, End, Blank, AllBlank, Dict;
    FieldsSetParts(text, updates);
    NotesSetBody(FieldsSet(text, updates), notes);
    NotesSetParts(text, notes);
  }

  // --- texts without a frontmatter ----------------------------------------------------------------

  lemma NoPrefix(lines: Lines)
    ensures End(lines).None? <==> Prefix(lines) == []
    ensures End(lines).None? ==> Body(lines) == lines && Front(lines) == []
  {
    hide FindClose, Delimiter, NoDelimiter;
  }

  /** The lines of a text with notes set, and no frontmatter. */
  lemma BareStaysBare(text: string, notes: string)
    requires End(Split(text)).None? && LeavesFront(text, Stored(notes))
    ensures End(Split(NotesSet(text, notes))).None?
  {
    hide Blank, FindHead, Fenced, Split, NotesSet, Open, Body, Prefix, After, Stored, Kept, Dangling, NoDelimiter, HasNotes, End, Tail;
    var lines, put := Split(text), NotesSet(text, notes);
    NoPrefix(lines);
    NoPrefix(Split(put));
    if Blank(Stored(notes)) {
      ClearShape(text, notes);
      if HasNotes(text) {
        var b := KeptScans(text);
        var t := [""] + After(text);
        assert Kept(text) + [""] + After(text) == Prefix(lines) + b + t;
        if Dangling(lines) {
          NoDelimiterBehind(text);
        }
        PrefixExtends(lines, b, t);
      }
    } else {
      var b := PutBody(text, notes);
    }
  }

  lemma BareLines(text: string, notes: string)
    requires End(Split(text)).None?
    ensures Split(NotesSet(text, notes)) == BodyPut(Split(text), Section(Stored(notes)))
      <==> Blank(Stored(notes)) || RStripNewlines(text) != ""
  {
    hide Blank, Split, NotesSet, Stored, PopBlank, DropEmpty, RStripNewlines, Span, Body, Prefix, End, Join;
    var lines, stored := Split(text), Stored(notes);
    NoPrefix(lines);
    SplitRStrip(text);
    EmptyBare(text);
    match Span(lines)
    case None =>
      if Blank(stored) {
        ClearShape(text, notes);
      } else {
        PutShape(text, notes);
        BareAdded(Split(RStripNewlines(text)), DropEmpty(lines), Section(stored));
      }
    case Some((h, e)) =>
      BareKept(text, h, e);
      SpanNeedsText(text);
      if Blank(stored) {
        ClearShape(text, notes);
        assert PopBlank(lines[..h]) + [""] + [] + lines[e..] == PopBlank(lines[..h]) + [""] + lines[e..];
      } else {
        PutShape(text, notes);
        Spliced(PopBlank(lines[..h]), Section(stored), lines[e..]);
      }
  }

  lemma Spliced(before: Lines, section: Lines, after: Lines)
    ensures before + [""] + section + [""] + after == before + [""] + (section + [""]) + after
  {
  }

  lemma BareAdded(a: Lines, b: Lines, section: Lines)
    ensures a + [""] + section + [""] + [] == b + [""] + section + [""] <==> a == b
  {
    var x, y := a + [""] + section + [""] + [], b + [""] + section + [""];
    if x == y {
      assert |a| == |b|;
      assert a == x[..|a|] && b == y[..|b|];
    }
  }

  lemma BareKept(text: string, h: nat, e: nat)
    requires End(Split(text)).None? && Span(Split(text)) == Some((h, e))
    ensures HasNotes(text) && Kept(text) == PopBlank(Split(text)[..h]) && After(text) == Split(text)[e..]
  {
    hide Split, FindHead, FindEnd, FindClose, Delimiter, NoDelimiter, PopBlank;
  }

  lemma EmptyBare(text: string)
    ensures RStripNewlines(text) == "" <==> DropEmpty(Split(text)) == []
  {
    hide Split, RStripNewlines;
    SplitRStrip(text);
    SplitOneLine("");
    if DropEmpty(Split(text)) == [] {
      JoinSplit(RStripNewlines(text));
    } else {
      DropEmptyEnds(Split(text));
    }
  }

  lemma {:induction false} DropEmptyEnds(lines: Lines)
    ensures DropEmpty(lines) != [""]
  {
    if lines != [] && lines[|lines| - 1] == "" {
      DropEmptyEnds(lines[..|lines| - 1]);
    }
  }

  /** A text with a section is not empty. */
  lemma SpanNeedsText(text: string)
    requires End(Split(text)).None? && Span(Split(text)).Some?
    ensures RStripNewlines(text) != ""
  {
    hide Split, RStripNewlines, FindHead, FindEnd, DropEmpty, Blank, NotesHead, Fence;
    var lines := Split(text);
    var h := Span(lines).value.0;
    HeadIsFirst(lines, false);
    EmptyBare(text);
    if DropEmpty(lines) == [] {
      EmptyLines(lines);
      assert lines[h] == "";
      EmptyIsBlank();
      BlankLine("");
    }
  }

  lemma {:induction false} EmptyLines(lines: Lines)
    requires DropEmpty(lines) == []
    ensures forall i | 0 <= i < |lines| :: lines[i] == ""
  {
    if lines != [] {
      EmptyLines(lines[..|lines| - 1]);
    }
  }

  lemma SameBody(head: Lines, a: Lines, b: Lines)
    requires head != [] && AllOneLine(head) && AllOneLine(a) && AllOneLine(b)
    ensures Join(head + a) == Join(head + b) <==> a == b
  {
    hide Join, Split, OneLine;
    SplitJoin(head + a);
    SplitJoin(head + b);
    if Join(head + a) == Join(head + b) {
      assert a == (head + a)[|head|..] && b == (head + b)[|head|..];
    }
  }

  lemma CommuteBare(text: string, updates: seq<Field>, notes: string)
    requires Dict(updates) && End(Split(text)).None? && StaysFramed(text, updates)
    requires LeavesFront(text, Stored(notes))
    ensures NotesSet(FieldsSet(text, updates), notes) == FieldsSet(NotesSet(text, notes), updates)
      <==> Blank(Stored(notes)) || RStripNewlines(text) != ""
  {
    hide Split, Join, Section, Stored, BodyPut, SpliceAll, NotesSet, Prefix, Body, Front, End, Blank, AllBlank, Dict, RStripNewlines, OneLine, LeavesFront;
    var lines, put := Split(text), Split(NotesSet(text, notes));
    NoPrefix(lines);
    BareStaysBare(text, notes);
    NoPrefix(put);
    FieldsSetParts(text, updates);
    NotesSetBody(FieldsSet(text, updates), notes);
    var fm := SpliceAll([], updates);
    var head := ["---"] + fm + ["---"];
    FrontIsFramed(text);
    SpliceAllKeeps(Front(lines), updates);
    assert AllOneLine(head) by { assert OneLine("---"); }
    BodyPutOneLine(text, Stored(notes));
    BodyOneLine(NotesSet(text, notes));
    SameBody(head, BodyPut(lines, Section(Stored(notes))), put);
    BareLines(text, notes);
  }

  lemma BodyOneLine(text: string)
    ensures AllOneLine(Split(text))
  {
  }

  lemma DelimsOfFields(text: string, updates: seq<Field>)
    requires Dict(updates)
    ensures Delims(Split(FieldsSet(text, updates))) <= 2 + Delims(Body(Split(text)))
  {
    hide Split, Join, SpliceAll, Prefix, Body, Front, Blank, Dict, Delims, End, DropBlank;
    var body := Body(Split(text));
    if StaysFramed(text, updates) {
      FieldsSetParts(text, updates);
      PrefixDelims(Split(FieldsSet(text, updates)));
    } else {
      var k := DropBlankDrops(body);
      BodyLines(text);
      DelimsJoined(body[k..]);
      DelimsSlice(body, k, |body|);
      assert body[k..|body|] == body[k..];
    }
  }

  /** Notes that close an unclosed frontmatter: one order adds a second frontmatter above, the other edits the first. */
  lemma ClosedDoesNotCommute(text: string, updates: seq<Field>, notes: string)
    requires Dict(updates) && StaysFramed(text, updates) && !LeavesFront(text, Stored(notes)) && !Blank(Stored(notes))
    ensures NotesSet(FieldsSet(text, updates), notes) != FieldsSet(NotesSet(text, notes), updates)
  {
    hide Split, Stored, NotesSet, FieldsSet, Prefix, Body, Front, Blank, Dict, Delims, NoDelimiter, Kept, After, Section, StaysFramed, End, Dangling, SpliceAll, FindHead, Fenced, Open;
    var fields, put := FieldsSet(text, updates), NotesSet(text, notes);
    FieldsSetParts(text, updates);
    PrefixDelims(Split(fields));
    var b := KeptScans(fields);
    DelimsConcat(Prefix(Split(fields)), b);
    DelimsOfPut(fields, notes);
    NotesClose(text, notes);
    DelimsOfFields(put, updates);
  }

  lemma BlankLeavesFront(text: string, stored: string)
    requires Blank(stored)
    ensures LeavesFront(text, stored)
  {
    hide Delimiter, Split;
    BlankSplit(stored);
    forall i | 0 <= i < |Split(stored)| ensures !Delimiter(Split(stored)[i]) {
      BlankLine(Split(stored)[i]);
    }
  }

  lemma {:induction false} BlankSplit(s: string)
    requires Blank(s)
    ensures AllBlank(Split(s))
  {
    if s != "" {
      BlankSplit(s[1..]);
    }
  }

  /** When an update leaves a frontmatter, setting fields and setting notes commute, if and only if the text had one, or
      the notes do not close one it leaves open and do not go into an empty text. */
  lemma EditsCommute(text: string, updates: seq<Field>, notes: string)
    requires Dict(updates) && StaysFramed(text, updates)
    ensures NotesSet(FieldsSet(text, updates), notes) == FieldsSet(NotesSet(text, notes), updates)
      <==> || End(Split(text)).Some?
           || (LeavesFront(text, Stored(notes)) && (Blank(Stored(notes)) || RStripNewlines(text) != ""))
  {
    hide Split, Stored, NotesSet, FieldsSet, End, Blank, Dict, StaysFramed, LeavesFront, RStripNewlines;
    if End(Split(text)).Some? {
      CommuteFramed(text, updates, notes);
    } else if LeavesFront(text, Stored(notes)) {
      CommuteBare(text, updates, notes);
    } else {
      if Blank(Stored(notes)) {
        BlankLeavesFront(text, Stored(notes));
      }
      ClosedDoesNotCommute(text, updates, notes);
    }
  }
}
