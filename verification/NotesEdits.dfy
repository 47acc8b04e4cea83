/** Edit after edit: the laws of `set_notes` on a text that it wrote. */
module NotesEdits {
  import opened Text
  import opened Frontmatter
  import opened Notes
  import opened NotesLaws

  // --- a section just set -------------------------------------------------------------------------

  lemma {:induction false} PopBlankMore(a: Lines, blanks: Lines)
    requires AllBlank(blanks)
    ensures PopBlank(a + blanks) == PopBlank(a)
  {
    hide Blank;
    if blanks == [] {
      assert a + blanks == a;
    } else {
      var k := |blanks| - 1;
      assert (a + blanks)[..|a| + k] == a + blanks[..k];
      PopBlankMore(a, blanks[..k]);
    }
  }

  /** The lines up to the section. */
  function Before(text: string): Lines {
    Prefix(Split(text)) + Body(Split(text))[..Place(Body(Split(text)))]
  }

  lemma KeptOfBefore(text: string)
    requires HasNotes(text)
    ensures Kept(text) == PopBlank(Before(text))
  {
    hide Split, Prefix, Body, PopBlank, FindHead, FindEnd;
    var lines := Split(text);
    PrefixThenBody(lines);
    assert lines[..|Prefix(lines)| + Place(Body(lines))] == Before(text);
  }

  lemma SectionParts(b: Lines, tail: Lines, e: nat)
    requires e <= |tail|
    ensures var body := b + [""] + [NOTES] + tail;
      body[..|b| + 1] == b + [""] && body[|b| + 2 + e..] == tail[e..]
  {
  }

  /** Outside a fence a section just set is found; what follows it is what the scanner leaves of the notes and the
      rest. */
  lemma SectionFound(text: string, notes: string)
    requires !Blank(Stored(notes)) && !Open(text) && LeavesFront(text, Stored(notes))
    ensures var mid, tail := NotesSet(text, notes), Tail(Stored(notes), After(text));
      HasNotes(mid) && After(mid) == tail[FindEnd(tail, false)..] && Before(mid) == Kept(text) + [""]
  {
    hide Blank, FindHead, FindEnd, Fenced, Split, NotesSet, Open, Body, Prefix, Stored, Dangling, Kept, Tail, NoDelimiter, Heading, InSpan;
    hide After;
    var b := PutBody(text, notes);
    var mid, tail := NotesSet(text, notes), Tail(Stored(notes), After(text));
    SpanOfSection(b, tail);
    SectionParts(b, tail, FindEnd(tail, false));
    AfterOfSpan(mid, |b| + 1, |b| + 2 + FindEnd(tail, false));
    assert Prefix(Split(mid)) + (b + [""]) == Kept(text) + [""];
  }

  lemma AfterOfSpan(text: string, h: nat, e: nat)
    requires Span(Body(Split(text))) == Some((h, e))
    ensures HasNotes(text) && After(text) == Body(Split(text))[e..] && Place(Body(Split(text))) == h
  {
    hide Split, Body, FindHead, FindEnd;
  }

  /** The file with a section just set: the section is found, and nothing else moves. */
  lemma Settled(text: string, notes: string)
    requires !Blank(Stored(notes)) && !Open(text) && Readable(Stored(notes), After(text))
    requires LeavesFront(text, Stored(notes))
    ensures var mid := NotesSet(text, notes);
      && HasNotes(mid) && After(mid) == After(text) && Kept(mid) == PopBlank(Kept(text))
      && Before(mid) == Kept(text) + [""]
  {
    hide Blank, FindEnd, Split, NotesSet, Open, Stored, Kept, Before, HasNotes, PopBlank, Heading, Join, StripNewlines, After, LeavesFront, Readable;
    var mid, stored, after := NotesSet(text, notes), Stored(notes), After(text);
    SectionFound(text, notes);
    StoredEnds(notes);
    AfterHeading(text);
    assert stored != "" by { NotBlankNotEmpty(stored); }
    ReadsBack(stored, after);
    assert Tail(stored, after)[|Split(stored)| + 2..] == after;
    KeptOfBefore(mid);
    assert AllBlank([""]) by { EmptyIsBlank(); }
    PopBlankMore(Kept(text), [""]);
  }

  lemma NotBlankNotEmpty(s: string)
    requires !Blank(s)
    ensures s != ""
  {
  }

  lemma PopBlankFixed(lines: Lines)
    requires lines != []
    ensures PopBlank(lines) == lines <==> !Blank(lines[|lines| - 1])
  {
    hide Blank, PopBlank;
    var k := PopBlankPops(lines);
    assert k == |lines| ==> lines[..k] == lines;
    assert k < |lines| ==> lines[k..][|lines| - 1 - k] == lines[|lines| - 1];
  }

  lemma {:induction false} PopBlankTwice(lines: Lines)
    ensures PopBlank(PopBlank(lines)) == PopBlank(lines)
  {
    if lines != [] && Blank(lines[|lines| - 1]) {
      PopBlankTwice(lines[..|lines| - 1]);
    }
  }

  lemma SameStart(a: Lines, b: Lines, rest: Lines)
    requires AllOneLine(a) && AllOneLine(b) && AllOneLine(rest) && rest != []
    ensures Join(a + rest) == Join(b + rest) <==> a == b
  {
    hide Join, Split, OneLine;
    SplitJoin(a + rest);
    SplitJoin(b + rest);
    if Join(a + rest) == Join(b + rest) {
      assert |a| == |b|;
      assert a == (a + rest)[..|a|] && b == (b + rest)[..|b|];
    }
  }

  /** An edit keeps the lines before the section as they are from then on. */
  lemma KeptFixed(text: string)
    ensures Kept(text) == [] ==> HasNotes(text)
    ensures PopBlank(Kept(text)) == Kept(text) <==> HasNotes(text) || !Blank(Kept(text)[|Kept(text)| - 1])
  {
    hide Blank, FindHead, FindEnd, Split, Body, Prefix, PopBlank, Span;
    if HasNotes(text) {
      PrefixThenBody(Split(text));
      PopBlankTwice(Split(text)[..|Prefix(Split(text))| + Place(Body(Split(text)))]);
    } else {
      PopBlankFixed(Kept(text));
    }
  }

  lemma SectionOneLine(stored: string)
    ensures AllOneLine(Section(stored))
  {
  }

  // --- what is outside the section ----------------------------------------------------------------

  function Filled(lines: Lines): Lines {
    if lines == [] then [] else (if Blank(lines[0]) then [] else [lines[0]]) + Filled(lines[1..])
  }

  lemma {:induction false} FilledConcat(a: Lines, b: Lines)
    ensures Filled(a + b) == Filled(a) + Filled(b)
  {
    hide Blank;
    if a == [] {
      assert a + b == b;
    } else {
      assert (a + b)[1..] == a[1..] + b;
      FilledConcat(a[1..], b);
    }
  }

  lemma {:induction false} FilledBlank(lines: Lines)
    requires AllBlank(lines)
    ensures Filled(lines) == []
  {
    if lines != [] {
      FilledBlank(lines[1..]);
    }
  }

  /** Every line but those of the section. */
  function Outside(text: string): Lines {
    Before(text) + After(text)
  }

  lemma FilledSingle(line: string)
    ensures Filled([line]) == if Blank(line) then [] else [line]
  {
    assert [line][1..] == [];
  }

  lemma FilledPadded(lines: Lines)
    ensures Filled([""] + lines) == Filled(lines) && Filled(lines + [""]) == Filled(lines)
  {
    hide Filled, Blank;
    FilledConcat([""], lines);
    FilledConcat(lines, [""]);
    FilledSingle("");
    EmptyIsBlank();
  }

  lemma FilledSection(stored: string)
    requires !Blank(stored)
    ensures Filled([""] + Section(stored) + [""]) == [NOTES] + Filled(Split(stored))
  {
    hide Filled, Split, Blank;
    var ns := Split(stored);
    var section := [NOTES] + ([""] + ns);
    assert Section(stored) == section;
    FilledPadded([""] + section);
    FilledPadded(section);
    FilledConcat([NOTES], [""] + ns);
    FilledPadded(ns);
    FilledSingle(NOTES);
    NotesFilled();
  }

  /** Every non-blank line outside the section survives an edit, in order and around the new section, whatever fences and
      notes there are; and it still is outside the section where the notes are read back. */
  lemma PutKeepsOutside(text: string, notes: string)
    requires !Blank(Stored(notes))
    ensures Filled(Split(NotesSet(text, notes)))
      == Filled(Before(text)) + [NOTES] + Filled(Split(Stored(notes))) + Filled(After(text))
    ensures !Open(text) && Readable(Stored(notes), After(text)) && LeavesFront(text, Stored(notes)) ==>
      Filled(Outside(NotesSet(text, notes))) == Filled(Outside(text))
  {
    hide Blank, Split, NotesSet, Open, Stored, After, Readable, LeavesFront, Kept, Filled, Outside, Before, Section;
    var kept, after, stored := Kept(text), After(text), Stored(notes);
    FilledBefore(text);
    PutShape(text, notes);
    assert kept + [""] + Section(stored) + [""] + after == kept + (([""] + Section(stored) + [""]) + after);
    FilledConcat(kept, ([""] + Section(stored) + [""]) + after);
    FilledConcat([""] + Section(stored) + [""], after);
    FilledSection(stored);
    assert Filled(kept) + (([NOTES] + Filled(Split(stored))) + Filled(after))
      == Filled(kept) + [NOTES] + Filled(Split(stored)) + Filled(after);
    if !Open(text) && Readable(stored, after) && LeavesFront(text, stored) {
      StillOutside(text, notes);
    }
  }

  lemma FilledBefore(text: string)
    ensures Filled(Before(text)) == Filled(Kept(text))
    ensures Filled(Outside(text)) == Filled(Before(text)) + Filled(After(text))
  {
    hide Blank, FindHead, FindEnd, Split, Body, Prefix, After, Kept, Filled;
    var lines := Split(text);
    var k := KeptIsPrefix(text);
    var place := |Prefix(lines)| + Place(Body(lines));
    PrefixThenBody(lines);
    var before := lines[..place];
    assert before == Before(text);
    FilledConcat(before, After(text));
    assert before == lines[..k] + lines[k..place];
    FilledConcat(lines[..k], lines[k..place]);
    FilledBlank(lines[k..place]);
  }

  lemma StillOutside(text: string, notes: string)
    requires !Blank(Stored(notes)) && !Open(text) && Readable(Stored(notes), After(text)) && LeavesFront(text, Stored(notes))
    ensures Filled(Outside(NotesSet(text, notes))) == Filled(Outside(text))
  {
    hide Blank, NotesSet, Open, Stored, PopBlank, After, Readable, Kept, Filled, LeavesFront, Before, HasNotes;
    Settled(text, notes);
    FilledBefore(text);
    FilledConcat(Kept(text) + [""], After(text));
    FilledConcat(Kept(text), [""]);
    FilledSingle("");
    EmptyIsBlank();
  }

  // --- put after put ------------------------------------------------------------------------------

  /** Two puts that give the same text left as many non-blank lines outside the section. */
  lemma SameOutside(a: string, b: string, notes: string)
    requires !Blank(Stored(notes)) && NotesSet(a, notes) == NotesSet(b, notes)
    ensures |Filled(Outside(a))| == |Filled(Outside(b))|
  {
    hide Blank, Split, NotesSet, Open, Stored, After, Readable, LeavesFront, Filled, Outside, Before;
    PutKeepsOutside(a, notes);
    PutKeepsOutside(b, notes);
    FilledBefore(a);
    FilledBefore(b);
  }

  /** In an open fence the first heading is passed over, and counts as text before the section from then on. */
  lemma FenceAddsOutside(text: string, notes: string)
    requires !Blank(Stored(notes)) && Open(text) && LeavesFront(text, Stored(notes))
    ensures |Filled(Outside(NotesSet(text, notes)))| > |Filled(Outside(text))|
  {
    hide Blank, FindHead, FindEnd, Fenced, Split, NotesSet, Open, Body, Prefix, Stored, After, Dangling, Kept, Filled, Tail, Outside;
    var b := PutBody(text, notes);
    var put := NotesSet(text, notes);
    var body := Body(Split(put));
    NotOpenAfter(text);
    FencePast(b);
    var skipped := b + [""] + [NOTES] + [""];
    var ns := Split(Stored(notes));
    assert Tail(Stored(notes), []) == [""] + (ns + [""]) by { TailOf(Stored(notes)); }
    assert body == skipped + (ns + [""]);
    FindHeadConcat(skipped, ns + [""], false);
    var more := body[|skipped|..Place(body)];
    assert body[..Place(body)] == skipped + more;
    var kept := Kept(text);
    assert Before(put) == kept + ([""] + ([NOTES] + ([""] + more)));
    FilledConcat(kept, [""] + ([NOTES] + ([""] + more)));
    FilledConcat([""], [NOTES] + ([""] + more));
    FilledConcat([NOTES], [""] + more);
    FilledSingle(NOTES);
    NotesFilled();
    FilledBefore(put);
    FilledBefore(text);
    assert Filled([]) == [] by { FilledBlank([]); }
  }

  lemma TailOf(stored: string)
    ensures Tail(stored, []) == [""] + (Split(stored) + [""])
  {
    hide Split;
  }

  lemma NotesFilled()
    ensures !Blank(NOTES)
  {
    assert !IsSpace(NOTES[0]);
  }

  lemma RestOutside(text: string, notes: string)
    requires !Blank(Stored(notes)) && !Open(text) && LeavesFront(text, Stored(notes))
    ensures var tail := Tail(Stored(notes), After(text));
      Filled(Outside(NotesSet(text, notes))) == Filled(Kept(text)) + Filled(tail[FindEnd(tail, false)..])
  {
    hide Blank, FindEnd, NotesSet, Open, Stored, Kept, Filled, Tail, Before, After, HasNotes, LeavesFront;
    var tail := Tail(Stored(notes), After(text));
    SectionFound(text, notes);
    var rest := tail[FindEnd(tail, false)..];
    FilledConcat(Kept(text) + [""], rest);
    FilledConcat(Kept(text), [""]);
    FilledSingle("");
    EmptyIsBlank();
  }

  /** Unreadable notes move lines across the end of the section: some of theirs out of it, or some of the rest into it. */
  lemma UnreadableShifts(text: string, notes: string)
    requires !Blank(Stored(notes)) && !Open(text) && LeavesFront(text, Stored(notes))
    requires !Readable(Stored(notes), After(text))
    ensures |Filled(Outside(NotesSet(text, notes)))| != |Filled(Outside(text))|
  {
    hide Blank, FindHead, FindEnd, Fenced, Split, NotesSet, Open, Stored, Kept, Filled, Outside, LeavesFront, After, Heading, Tail;
    var stored, after := Stored(notes), After(text);
    var ns, tail := Split(stored), Tail(stored, after);
    RestOutside(text, notes);
    FilledBefore(text);
    TailEnd(stored, after);
    var f := FindEnd(ns, false);
    if f < |ns| {
      HeadingSpills(stored, after, f);
    } else {
      AfterHeading(text);
      HeadingEnds(after, true);
      var g := FindEnd(after, true);
      RestSwallowed(stored, after, g);
    }
  }

  lemma HeadingSpills(stored: string, after: Lines, f: nat)
    requires f < |Split(stored)| && f == FindEnd(Split(stored), false)
    ensures 1 + f <= |Tail(stored, after)| && |Filled(Tail(stored, after)[1 + f..])| > |Filled(after)|
  {
    hide Split, FindEnd, Filled, Blank, Heading;
    var ns := Split(stored);
    var rest := ns[f + 1..] + [""];
    assert Tail(stored, after)[1 + f..] == [ns[f]] + (rest + after);
    FilledConcat([ns[f]], rest + after);
    FilledConcat(rest, after);
    FilledSingle(ns[f]);
    HeadingFilled(ns[f]);
  }

  lemma HeadingFilled(line: string)
    requires Heading(line)
    ensures !Blank(line)
  {
    HeadingStart(line);
    assert !IsSpace(line[0]);
  }

  lemma RestSwallowed(stored: string, after: Lines, g: nat)
    requires after != [] && Heading(after[0]) && 0 < g <= |after|
    ensures var n := |Split(stored)| + 2;
      n + g <= |Tail(stored, after)| && |Filled(Tail(stored, after)[n + g..])| < |Filled(after)|
  {
    hide Split, Filled, Blank, Heading;
    var n := |Split(stored)| + 2;
    assert Tail(stored, after)[n + g..] == after[g..];
    assert after == [after[0]] + (after[1..g] + after[g..]);
    FilledConcat([after[0]], after[1..g] + after[g..]);
    FilledConcat(after[1..g], after[g..]);
    FilledSingle(after[0]);
    HeadingFilled(after[0]);
  }

  /** Notes that close the frontmatter stay in it when other notes are set. */
  lemma ClosedStays(text: string, first: string, second: string)
    requires !Blank(Stored(first)) && !Blank(Stored(second)) && !LeavesFront(text, Stored(first))
    ensures NotesSet(NotesSet(text, first), second) != NotesSet(text, second)
  {
    hide Delims, Split, NotesSet, Stored, Blank, Kept, After, Prefix, Body, Section, NoDelimiter, Dangling, FindHead, Fenced, Open;
    var mid := NotesSet(text, first);
    NotesClose(text, first);
    DanglingStart(text);
    var b := KeptScans(mid);
    DelimsConcat(Prefix(Split(mid)), b);
    DelimsOfPut(mid, second);
    DelimsOfPut(text, second);
  }

  lemma DelimsOfPut(text: string, notes: string)
    requires !Blank(Stored(notes))
    ensures Delims(Split(NotesSet(text, notes)))
      == Delims(Kept(text)) + Delims(Split(Stored(notes))) + Delims(After(text))
  {
    hide Delims, Split, NotesSet, Stored, Blank, Kept, After, Section;
    PutShape(text, notes);
    var section := [""] + Section(Stored(notes)) + [""];
    assert Kept(text) + [""] + Section(Stored(notes)) + [""] + After(text) == Kept(text) + (section + After(text));
    DelimsConcat(Kept(text), section + After(text));
    DelimsConcat(section, After(text));
    DelimsOfSection(Stored(notes));
  }

  lemma SettledTwice(text: string, first: string, second: string)
    requires !Blank(Stored(first)) && !Open(text) && Readable(Stored(first), After(text))
    requires LeavesFront(text, Stored(first)) && !Blank(Stored(second))
    ensures Kept(text) == [] ==> HasNotes(text)
    ensures NotesSet(NotesSet(text, first), second) == NotesSet(text, second)
      <==> HasNotes(text) || !Blank(Kept(text)[|Kept(text)| - 1])
  {
    hide Blank, Join, Split, NotesSet, Open, Body, Prefix, Stored, PopBlank, After, Readable, LeavesFront, Kept, HasNotes, Section;
    var mid := NotesSet(text, first);
    Settled(text, first);
    PutJoined(mid, second);
    PutJoined(text, second);
    var section := Section(Stored(second));
    var rest := [""] + section + [""] + After(text);
    var kept := Kept(text);
    assert kept + [""] + section + [""] + After(text) == kept + rest;
    assert Kept(mid) + [""] + section + [""] + After(text) == Kept(mid) + rest;
    KeptOneLine(text);
    KeptOneLine(mid);
    SectionOneLine(Stored(second));
    SameStart(Kept(mid), kept, rest);
    KeptFixed(text);
  }

  /** Setting notes twice is setting the second ones, exactly when the first ones are read back and the text had a
      section already or its last line before the trailing newlines is not blank. */
  lemma PutThenPut(text: string, first: string, second: string)
    requires !Blank(Stored(first)) && !Blank(Stored(second))
    ensures Kept(text) == [] ==> HasNotes(text)
    ensures NotesSet(NotesSet(text, first), second) == NotesSet(text, second)
      <==> && !Open(text) && Readable(Stored(first), After(text)) && LeavesFront(text, Stored(first))
           && (HasNotes(text) || !Blank(Kept(text)[|Kept(text)| - 1]))
  {
    hide Blank, NotesSet, Open, Stored, PopBlank, After, Readable, LeavesFront, Kept, HasNotes, Filled, Outside;
    KeptFixed(text);
    var mid := NotesSet(text, first);
    if !LeavesFront(text, Stored(first)) {
      ClosedStays(text, first, second);
    } else if !Open(text) && Readable(Stored(first), After(text)) {
      SettledTwice(text, first, second);
    } else {
      if Open(text) {
        FenceAddsOutside(text, first);
      } else {
        UnreadableShifts(text, first);
      }
      if NotesSet(mid, second) == NotesSet(text, second) {
        SameOutside(mid, text, second);
      }
    }
  }

  // --- clearing -----------------------------------------------------------------------------------

  /** Clearing keeps exactly the non-blank lines outside the section. */
  lemma ClearKeepsOutside(text: string, notes: string)
    requires Blank(Stored(notes))
    ensures !HasNotes(text) ==> NotesSet(text, notes) == text
    ensures HasNotes(text) ==> Split(NotesSet(text, notes)) == Kept(text) + [""] + After(text)
    ensures HasNotes(text) ==> Filled(Split(NotesSet(text, notes))) == Filled(Outside(text))
  {
    hide Blank, Split, NotesSet, Stored, Kept, After, Filled, Outside, Before, HasNotes;
    ClearShape(text, notes);
    FilledBefore(text);
    FilledConcat(Kept(text) + [""], After(text));
    FilledPadded(Kept(text));
  }

  /** A text without its trailing newlines, and one newline. */
  lemma OneNewline(text: string)
    requires !HasNotes(text)
    ensures Split(RStripNewlines(text) + "\n") == Kept(text) + [""]
  {
    hide Split, RStripNewlines, Span, Body;
    SplitNewline(RStripNewlines(text));
  }

  lemma AddThenClearReadable(text: string, notes: string, blank: string)
    requires !HasNotes(text) && !Blank(Stored(notes)) && Blank(Stored(blank))
    requires !Open(text) && Readable(Stored(notes), []) && LeavesFront(text, Stored(notes))
    ensures Kept(text) != []
    ensures NotesSet(NotesSet(text, notes), blank) == RStripNewlines(text) + "\n" <==> !Blank(Kept(text)[|Kept(text)| - 1])
  {
    hide Blank, Split, NotesSet, Open, Stored, PopBlank, Readable, LeavesFront, Kept, RStripNewlines, Before, Filled, Outside, Span, Body, Join;
    var mid := NotesSet(text, notes);
    assert After(text) == [];
    Settled(text, notes);
    ClearKeepsOutside(mid, blank);
    KeptFixed(text);
    OneNewline(text);
    var cleared, bare := NotesSet(mid, blank), RStripNewlines(text) + "\n";
    assert PopBlank(Kept(text)) + [""] + [] == PopBlank(Kept(text)) + [""];
    assert PopBlank(Kept(text)) + [""] == Kept(text) + [""] <==> PopBlank(Kept(text)) == Kept(text) by {
      assert (PopBlank(Kept(text)) + [""])[..|PopBlank(Kept(text))|] == PopBlank(Kept(text));
      assert (Kept(text) + [""])[..|Kept(text)|] == Kept(text);
    }
    JoinSplit(cleared);
    JoinSplit(bare);
  }

  lemma AddThenClearUnread(text: string, notes: string, blank: string)
    requires !HasNotes(text) && !Blank(Stored(notes)) && Blank(Stored(blank))
    requires Open(text) || !Readable(Stored(notes), []) || !LeavesFront(text, Stored(notes))
    ensures NotesSet(NotesSet(text, notes), blank) != RStripNewlines(text) + "\n"
  {
    hide Blank, Split, NotesSet, Open, Stored, PopBlank, Readable, LeavesFront, Kept, RStripNewlines, Before, Filled, Outside, Span, Body, Section, Delims;
    var mid := NotesSet(text, notes);
    assert After(text) == [];
    OneNewline(text);
    ClearKeepsOutside(mid, blank);
    PutShape(text, notes);
    if HasNotes(mid) {
      if !LeavesFront(text, Stored(notes)) {
        ClosedNotCleared(text, notes);
      } else {
        FilledConcat(Kept(text), [""]);
        FilledSingle("");
        EmptyIsBlank();
        FilledBefore(text);
        FilledNothing();
        if Open(text) {
          FenceAddsOutside(text, notes);
        } else {
          UnreadableShifts(text, notes);
        }
      }
    }
  }

  lemma FilledNothing()
    ensures Filled([]) == []
  {
  }

  lemma ClosedNotCleared(text: string, notes: string)
    requires !Blank(Stored(notes)) && !LeavesFront(text, Stored(notes))
    ensures var mid := NotesSet(text, notes);
      Kept(mid) + [""] + After(mid) != Kept(text) + [""]
  {
    hide Delims, Split, NotesSet, Stored, Blank, Kept, After, Prefix, Body, NoDelimiter, Dangling, FindHead, Fenced, Open;
    var mid := NotesSet(text, notes);
    NotesClose(text, notes);
    DanglingStart(text);
    var b := KeptScans(mid);
    DelimsConcat(Prefix(Split(mid)), b);
    DelimsConcat(Kept(mid), [""]);
    DelimsConcat(Kept(mid) + [""], After(mid));
    DelimsConcat(Kept(text), [""]);
    DelimsOne("");
    EmptyIsNoDelimiter();
  }

  /** Adding a section and clearing it leaves the text with exactly one trailing newline, if and only if the notes are
      read back and the last line before the trailing newlines is not blank. */
  lemma AddThenClear(text: string, notes: string, blank: string)
    requires !HasNotes(text) && !Blank(Stored(notes)) && Blank(Stored(blank))
    ensures Kept(text) != []
    ensures NotesSet(NotesSet(text, notes), blank) == RStripNewlines(text) + "\n"
      <==> && !Open(text) && Readable(Stored(notes), []) && LeavesFront(text, Stored(notes))
           && !Blank(Kept(text)[|Kept(text)| - 1])
  {
    hide Blank, NotesSet, Open, Stored, Readable, LeavesFront, Kept, RStripNewlines, HasNotes, PopBlank;
    KeptFixed(text);
    if !Open(text) && Readable(Stored(notes), []) && LeavesFront(text, Stored(notes)) {
      AddThenClearReadable(text, notes, blank);
    } else {
      AddThenClearUnread(text, notes, blank);
    }
  }

  // --- the body that is shown beside the notes ----------------------------------------------------

  lemma {:induction false} FilledLStrip(s: string)
    ensures Filled(Split(LStripNewlines(s))) == Filled(Split(s))
  {
    hide Filled, Split;
    if s != "" && s[0] == '\n' {
      FilledLStrip(s[1..]);
      SplitPrepend("", s[1..]);
      assert s == "" + "\n" + s[1..];
      FilledPadded(Split(s[1..]));
    }
  }

  /** Joining lines and stripping newlines loses no non-blank line. */
  lemma FilledStripped(lines: Lines)
    requires AllOneLine(lines)
    ensures Filled(Split(StripNewlines(Join(lines)))) == Filled(lines)
  {
    hide Filled, Split, Join, LStripNewlines, RStripNewlines, OneLine, Blank;
    var s := Join(lines);
    assert Filled(Split(s)) == Filled(lines) by {
      if lines == [] {
        FilledOfNothing();
      } else {
        SplitJoin(lines);
      }
    }
    FilledLStrip(s);
    var t := Split(LStripNewlines(s));
    var k := RStripLines(LStripNewlines(s));
    assert t == t[..k] + t[k..];
    FilledConcat(t[..k], t[k..]);
    FilledBlank(t[k..]);
  }

  lemma FilledOfNothing()
    ensures Filled(Split(Join([]))) == Filled([])
  {
    SplitOneLine("");
    EmptyIsBlank();
    FilledSingle("");
  }

  /** The title: the first non-blank line of the body, if it is a level-one heading. */
  predicate TitleFirst(lines: Lines) {
    Filled(lines) != [] && "# " <= Filled(lines)[0]
  }

  function Untitle(lines: Lines, titled: bool): Lines {
    if titled && lines != [] then lines[1..] else lines
  }

  lemma FilledFirst(lines: Lines)
    requires lines != [] && !Blank(lines[0])
    ensures Filled(lines) == [lines[0]] + Filled(lines[1..])
  {
    hide Blank;
  }

  lemma UntitledAt(body: Lines, k: nat)
    requires k <= |body| && DropBlank(body) == body[k..] && AllBlank(body[..k]) && (k < |body| ==> !Blank(body[k]))
    ensures Filled(body) == Filled(body[k..])
    ensures TitleFirst(body) <==> k < |body| && "# " <= body[k]
    ensures Untitled(body) == if TitleFirst(body) then body[k + 1..] else body[k..]
  {
    hide Blank, Filled, DropBlank;
    var b := body[k..];
    assert body == body[..k] + b;
    FilledConcat(body[..k], b);
    FilledBlank(body[..k]);
    if b == [] {
      FilledNothing();
    } else {
      FilledFirst(b);
      assert b[1..] == body[k + 1..];
    }
  }

  lemma UntitledParts(body: Lines) returns (a: Lines)
    ensures body == a + Untitled(body)
    ensures FindHead(a, false) == |a| && !Fenced(a, false)
    ensures Filled(a) == if TitleFirst(body) then [Filled(body)[0]] else []
  {
    hide Blank, FindHead, Fenced, Filled, DropBlank, Untitled, TitleFirst;
    var k := DropBlankDrops(body);
    UntitledAt(body, k);
    a := body[..k];
    FilledBlank(a);
    BlankLines(a, false);
    if TitleFirst(body) {
      var title := body[k];
      PastTitle(title);
      FindHeadConcat(a, [title], false);
      FencedConcat(a, [title], false);
      FilledConcat(a, [title]);
      FilledSingle(title);
      FilledFirst(body[k..]);
      a := a + [title];
    }
    assert body == a + body[|a|..];
  }

  lemma OutOfSpanAt(body: Lines, h: nat, e: nat)
    requires h < e <= |body| && Span(body) == Some((h, e))
    ensures OutOfSpan(body) == body[..h] + body[e..]
  {
    hide FindHead, FindEnd;
  }

  lemma OutOfNoSpan(body: Lines)
    requires FindHead(body, false) == |body|
    ensures OutOfSpan(body) == body
  {
    hide FindEnd;
  }

  lemma CutShifts(a: Lines, u: Lines, h: nat, e: nat)
    requires h <= e <= |u|
    ensures (a + u)[..|a| + h] + (a + u)[|a| + e..] == a + (u[..h] + u[e..])
  {
    assert (a + u)[..|a| + h] == a + u[..h] && (a + u)[|a| + e..] == u[e..];
  }

  lemma AroundShifts(a: Lines, u: Lines)
    requires FindHead(a, false) == |a| && !Fenced(a, false)
    ensures OutOfSpan(a + u) == a + OutOfSpan(u)
  {
    hide FindHead, FindEnd, Fenced, Span, InSpan, OutOfSpan;
    FindHeadConcat(a, u, false);
    var h := FindHead(u, false);
    if h < |u| {
      var tail := u[h + 1..];
      assert (a + u)[|a| + h + 1..] == tail;
      SpanFrom(u, h, tail);
      SpanFrom(a + u, |a| + h, tail);
      var e := h + 1 + FindEnd(tail, false);
      OutOfSpanAt(u, h, e);
      OutOfSpanAt(a + u, |a| + h, |a| + e);
      CutShifts(a, u, h, e);
    } else {
      OutOfNoSpan(u);
      OutOfNoSpan(a + u);
    }
  }

  /** The body that `split_notes` shows holds, in order, every non-blank line of the file's body that lies outside the
      section, but for the title. */
  lemma SplitShowsBody(text: string)
    ensures var body := Body(Split(text));
      && Place(body) <= |body|
      && Filled(Split(NotesSplit(text).0)) == Untitle(Filled(body[..Place(body)] + After(text)), TitleFirst(body))
  {
    hide Blank, Filled, Split, StripNewlines, Join, Span, Body, Untitled, OneLine, TitleFirst, OutOfSpan, FindHead, Fenced, After;
    var body := Body(Split(text));
    BodyLines(text);
    var a := UntitledParts(body);
    var u := Untitled(body);
    AroundShifts(a, u);
    AroundIs(text);
    FilledConcat(a, OutOfSpan(u));
    assert AllOneLine(u) by { assert u == body[|a|..]; }
    OutOneLine(u);
    FilledStripped(OutOfSpan(u));
  }

  lemma OutOneLine(u: Lines)
    requires AllOneLine(u)
    ensures AllOneLine(OutOfSpan(u))
  {
    hide OneLine, FindHead, FindEnd;
  }

  /** The title stands before the section. */
  lemma TitleBefore(body: Lines)
    ensures Place(body) <= |body| && (TitleFirst(body) <==> TitleFirst(body[..Place(body)]))
  {
    hide Blank, Filled, FindHead, NotesHead, Fence;
    var h := Place(body);
    HeadIsFirst(body, false);
    assert body == body[..h] + body[h..];
    FilledConcat(body[..h], body[h..]);
    if h < |body| {
      assert body[h..] == [body[h]] + body[h + 1..];
      FilledConcat([body[h]], body[h + 1..]);
      FilledSingle(body[h]);
      if Blank(body[h]) {
        BlankLine(body[h]);
      }
      if "# " <= body[h] {
        HashLine(body[h]);
      }
    } else {
      FilledNothing();
    }
  }

  lemma AroundIs(text: string)
    ensures var body := Body(Split(text));
      Place(body) <= |body| && OutOfSpan(body) == body[..Place(body)] + After(text)
  {
    hide Split, Body, FindHead, FindEnd;
    var body := Body(Split(text));
    if Span(body).None? {
      assert body[..|body|] + [] == body;
    }
  }

  /** What an edit makes of the body's lines before the section. */
  lemma BeforeFilled(text: string, b: Lines)
    requires Kept(text) == Prefix(Split(text)) + b
    ensures var body := Body(Split(text)); Filled(body[..Place(body)]) == Filled(b)
  {
    hide Split, Body, Prefix, Kept, FindHead, Filled, Blank, Outside;
    var lines := Split(text);
    var body := Body(lines);
    AroundIs(text);
    FilledBefore(text);
    FilledConcat(Prefix(lines), b);
    FilledConcat(Prefix(lines), body[..Place(body)]);
    var p := Filled(Prefix(lines));
    assert (p + Filled(b))[|p|..] == Filled(b);
    assert (p + Filled(body[..Place(body)]))[|p|..] == Filled(body[..Place(body)]);
  }

  /** Editing the notes changes nothing in the body that is shown beside them, where they are read back. */
  lemma PutKeepsBody(text: string, notes: string)
    requires !Blank(Stored(notes)) && !Open(text) && Readable(Stored(notes), After(text)) && LeavesFront(text, Stored(notes))
    ensures Filled(Split(NotesSplit(NotesSet(text, notes)).0)) == Filled(Split(NotesSplit(text).0))
  {
    hide Blank, Filled, Split, NotesSet, NotesSplit, Stored, Open, Readable, After, Kept, Prefix, Body, FindHead, Fenced, Tail, TitleFirst, Before, HasNotes, PopBlank, NoDelimiter, Dangling;
    var mid := NotesSet(text, notes);
    var body, newBody := Body(Split(text)), Body(Split(mid));
    SplitShowsBody(text);
    SplitShowsBody(mid);
    Settled(text, notes);
    var b := PutBody(text, notes);
    BeforeFilled(text, b);
    BeforeOf(text, mid, b);
    var before := newBody[..Place(newBody)];
    FilledPadded(b);
    FilledConcat(body[..Place(body)], After(text));
    FilledConcat(before, After(text));
    TitleBefore(body);
    TitleBefore(newBody);
    SameTitle(body[..Place(body)], before);
  }

  lemma SameTitle(a: Lines, b: Lines)
    requires Filled(a) == Filled(b)
    ensures TitleFirst(a) == TitleFirst(b)
  {
    hide Filled;
  }

  lemma BeforeOf(text: string, mid: string, b: Lines)
    requires Before(mid) == Kept(text) + [""] && Kept(text) == Prefix(Split(text)) + b
    requires Prefix(Split(mid)) == Prefix(Split(text))
    ensures var body := Body(Split(mid)); Place(body) <= |body| && body[..Place(body)] == b + [""]
  {
    hide Split, Body, Prefix, Kept, FindHead;
    var body, p := Body(Split(mid)), Prefix(Split(mid));
    AroundIs(mid);
    assert (p + body[..Place(body)])[|p|..] == body[..Place(body)];
    assert (p + b + [""])[|p|..] == b + [""];
  }

  /** Clearing the only section changes nothing in the body that is shown, if and only if there is a line before the
      section, or no level-one heading right behind it, which would become the title. */
  lemma ClearKeepsBody(text: string, notes: string)
    requires Blank(Stored(notes)) && HasNotes(text) && Span(After(text)) == None
    ensures var body := Body(Split(text));
      Place(body) <= |body|
      && (Filled(Split(NotesSplit(NotesSet(text, notes)).0)) == Filled(Split(NotesSplit(text).0))
          <==> Filled(body[..Place(body)]) != [] || After(text) == [] || !("# " <= After(text)[0]))
  {
    hide Blank, Filled, Split, NotesSet, NotesSplit, Stored, After, Kept, Prefix, Body, FindHead, Fenced, Before, HasNotes, Span, Open, NoDelimiter, Dangling, Heading;
    var mid := NotesSet(text, notes);
    var body, newBody, after := Body(Split(text)), Body(Split(mid)), After(text);
    SplitShowsBody(text);
    SplitShowsBody(mid);
    var b := ClearedBody(text, notes);
    BeforeFilled(text, b);
    NothingAfter(mid);
    assert newBody[..|newBody|] + [] == newBody;
    FilledConcat(b + [""], after);
    FilledPadded(b);
    FilledConcat(body[..Place(body)], after);
    TitleBefore(body);
    AfterHeading(text);
    TitleOf(b, after, newBody);
    SameTitle(b, body[..Place(body)]);
  }

  lemma TitleOf(b: Lines, after: Lines, all: Lines)
    requires Filled(all) == Filled(b) + Filled(after) && (after != [] ==> Heading(after[0]))
    ensures TitleFirst(all) <==> TitleFirst(b) || (Filled(b) == [] && after != [] && "# " <= after[0])
    ensures after != [] ==> Filled(after) != []
  {
    hide Filled, Blank, Heading;
    if after != [] {
      assert after == [after[0]] + after[1..];
      FilledConcat([after[0]], after[1..]);
      FilledSingle(after[0]);
      HeadingFilled(after[0]);
    } else {
      FilledNothing();
    }
  }

  lemma NothingAfter(text: string)
    requires Span(Body(Split(text))) == None
    ensures Place(Body(Split(text))) == |Body(Split(text))| && After(text) == []
  {
    hide Split, Body, FindHead, FindEnd;
  }

  lemma ClearedBody(text: string, notes: string) returns (b: Lines)
    requires Blank(Stored(notes)) && HasNotes(text) && Span(After(text)) == None
    ensures Kept(text) == Prefix(Split(text)) + b
    ensures Body(Split(NotesSet(text, notes))) == b + [""] + After(text)
    ensures Span(Body(Split(NotesSet(text, notes)))) == None
  {
    hide Blank, FindHead, FindEnd, Fenced, Split, NotesSet, Open, Body, Prefix, After, Stored, Kept, Dangling, NoDelimiter, HasNotes, Heading;
    var lines := Split(text);
    ClearShape(text, notes);
    b := KeptScans(text);
    NotesNotOpen(text);
    var t := [""] + After(text);
    assert Kept(text) + [""] + After(text) == Prefix(lines) + b + t;
    if Dangling(lines) {
      NoDelimiterBehind(text);
    }
    PrefixExtends(lines, b, t);
    FindHeadConcat(b, [""], false);
    FencedConcat(b, [""], false);
    assert AllBlank([""]) by { EmptyIsBlank(); }
    BlankLines([""], false);
    assert b + t == (b + [""]) + After(text);
    FindHeadConcat(b + [""], After(text), false);
  }
}
