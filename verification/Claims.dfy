/** The claim an issue text carries, and what claiming and releasing make of it. */
module Claims {
  import opened Text
  import opened Frontmatter
  import opened Check

  const CLAIMED_BY := "claimed-by"

  /** What follows the first colon. */
  function AfterColon(line: string): string {
    if line == "" then "" else if line[0] == ':' then line[1..] else AfterColon(line[1..])
  }

  /** A field's value: the rest of its line, or its whole block when it spans several lines; None when it is empty. */
  function ValueOf(block: Lines): Option<string> {
    if |block| != 1 then Some(Join(block))
    else
      var v := Strip(AfterColon(block[0]));
      if v == "" then None else Some(v)
  }

  /** Who holds the claim of an issue text. */
  function Holder(text: string): Option<string> {
    if CLAIMED_BY in FieldMap(text) then ValueOf(FieldMap(text)[CLAIMED_BY]) else None
  }

  /** A name as `_scalar` renders it. */
  predicate Rendered(s: string) {
    OneLine(s) && s != "" && Strip(s) == s
  }

  /** An issue text whose claim is given at most once and whose body starts with a title. */
  predicate Regular(text: string) {
    OneClaim(text) && Titled(Body(Split(text)))
  }

  lemma {:induction false} AfterKey(key: string, value: string)
    requires ':' !in key
    ensures AfterColon(key + ": " + value) == " " + value
  {
    var line := key + ": " + value;
    if key == "" {
      assert line[1..] == " " + value;
    } else {
      AfterKey(key[1..], value);
      assert line[1..] == key[1..] + ": " + value;
    }
  }

  lemma ValueReadsBack(who: string)
    requires Rendered(who)
    ensures ValueOf([CLAIMED_BY + ": " + who]) == Some(who)
  {
    hide AfterColon, LStrip, RStrip;
    AfterKey(CLAIMED_BY, who);
    SpaceStripped(who);
  }

  /** A claim field without a value is no claim. */
  lemma EmptyIsNoClaim(text: string, gap: string, blank: string)
    requires Blank(gap) && Blank(blank)
    requires "claimed-by" in FieldMap(text) && FieldMap(text)["claimed-by"] == ["claimed-by" + gap + ":" + blank]
    ensures Holder(text) == None
  {
    hide FieldMap, Strip, IsSpace;
    BlankHasNoColon(gap);
    PastColon("claimed-by" + gap, blank);
    assert "claimed-by" + gap + ":" + blank == ("claimed-by" + gap) + (":" + blank);
    BlankStrips(blank);
  }

  /** A claim whose value goes on over several lines is a claim. */
  lemma LongValueIsClaim(text: string)
    requires "claimed-by" in FieldMap(text) && |FieldMap(text)["claimed-by"]| > 1
    ensures Holder(text) != None
  {
    hide FieldMap;
  }

  lemma {:induction false} PastColon(front: string, value: string)
    requires ':' !in front
    ensures AfterColon(front + (":" + value)) == value
  {
    var s := front + (":" + value);
    if front == "" {
      assert s == ":" + value && s[1..] == value;
    } else {
      PastColon(front[1..], value);
      assert s[1..] == front[1..] + (":" + value) && s[0] == front[0] && front[0] in front;
    }
  }

  lemma BlankHasNoColon(s: string)
    requires Blank(s)
    ensures ':' !in s
  {
    assert !IsSpace(':');
  }

  lemma BlankStrips(s: string)
    requires Blank(s)
    ensures Strip(s) == ""
  {
    LStripPadded(s, "");
    assert s + "" == s;
  }

  lemma SpaceStripped(s: string)
    ensures Strip(" " + s) == Strip(s)
  {
    assert IsSpace(' ');
    assert (" " + s)[1..] == s;
  }

  lemma ClaimLine(who: string, stamp: string)
    requires OneLine(who)
    ensures !AllBlank([CLAIMED_BY + ": " + who])
    ensures Field(CLAIMED_BY, Some(who)).NewLines() == [CLAIMED_BY + ": " + who]
  {
    assert ([CLAIMED_BY + ": " + who])[0][0] == 'c';
  }

  /** What an update makes of the claim field, in a frontmatter with at most one. */
  lemma PutAllClaim(fm: Lines, updates: seq<Field>)
    requires |updates| == 2 && Dict(updates) && updates[0].key == CLAIMED_BY
    requires Count(Blocks(fm), CLAIMED_BY) <= 1
    ensures var bs := Blocks(SpliceAll(fm, updates));
      Count(bs, CLAIMED_BY) == if updates[0].value.None? then 0 else 1
    ensures var m := AsMap(Blocks(SpliceAll(fm, updates)));
      && (CLAIMED_BY in m <==> updates[0].value.Some?)
      && (updates[0].value.Some? ==> m[CLAIMED_BY] == updates[0].NewLines())
  {
    hide Splice, Blocks, Put, AsMap, Count, PlainKey, KeyOf;
    var a, b := updates[0], updates[1];
    var one := Splice(fm, a.key, a.NewLines());
    NewLinesKey(a);
    NewLinesKey(b);
    assert updates == [a, b];
    SpliceAllTwo(fm, a, b);
    SpliceIsPut(fm, a.key, a.NewLines());
    SpliceIsPut(one, b.key, b.NewLines());
    PutCounts(Blocks(fm), a.key, a.NewLines(), a.key);
    PutCounts(Blocks(one), b.key, b.NewLines(), a.key);
    PutIsMapUpdate(Blocks(fm), a.key, a.NewLines());
    PutOtherKey(Blocks(one), b.key, b.NewLines(), a.key);
  }

  /** An update leaves the block of every other key alone, however often its own key is given. */
  lemma {:induction false} PutOtherKey(bs: seq<Block>, key: string, new_: Lines, other: string)
    requires other != key && (new_ != [] ==> KeyOf(new_[0]) == Some(key))
    ensures other in AsMap(Put(bs, key, new_)) <==> other in AsMap(bs)
    ensures other in AsMap(bs) ==> AsMap(Put(bs, key, new_))[other] == AsMap(bs)[other]
  {
    hide KeyOf;
    var after := Put(bs, key, new_);
    if bs == [] {
      assert new_ != [] ==> after[1..] == [];
    } else if KeyOf(bs[0][0]) == Some(key) {
      assert after == if new_ == [] then bs[1..] else [new_] + bs[1..];
    } else {
      PutOtherKey(bs[1..], key, new_, other);
      assert after[1..] == Put(bs[1..], key, new_);
    }
  }

  lemma {:induction false} SpliceHasLine(fm: Lines, key: string, line: string)
    ensures line in Splice(fm, key, [line])
  {
    hide Matches;
    if fm != [] && !Matches(key, fm[0]) {
      SpliceHasLine(fm[1..], key, line);
    }
  }

  lemma ClaimStaysFramed(text: string, who: string, stamp: string)
    requires OneLine(who) && OneLine(stamp)
    ensures StaysFramed(text, ClaimFields(who, stamp))
  {
    hide Splice, Blank, Split, Front;
    var fm := Front(Split(text));
    var a, b := ClaimFields(who, stamp)[0], ClaimFields(who, stamp)[1];
    SpliceAllTwo(fm, a, b);
    SpliceHasLine(Splice(fm, a.key, a.NewLines()), b.key, b.NewLines()[0]);
    var line := b.NewLines()[0];
    assert !Blank(line) by { ClaimedAtFilled(stamp); }
  }

  lemma ClaimedAtFilled(stamp: string)
    ensures !Blank("claimed-at" + ": " + stamp)
  {
    assert ("claimed-at" + ": " + stamp)[0] == 'c';
  }

  /** At most one claim in the frontmatter. */
  predicate OneClaim(text: string) {
    Count(Blocks(Front(Split(text))), CLAIMED_BY) <= 1
  }

  /** A claimed text is held by whoever claimed it. */
  lemma ClaimHolds(text: string, who: string, stamp: string)
    requires Rendered(who) && OneLine(stamp) && OneClaim(text)
    ensures var after := FieldsSet(text, ClaimFields(who, stamp));
      Holder(after) == Some(who) && OneClaim(after)
  {
    hide Splice, Blocks, AsMap, Count, SpliceAll, Split, Front, Body, FieldsSet, ValueOf, Titled;
    ClaimIsDict(who, stamp);
    ClaimStaysFramed(text, who, stamp);
    FieldsSetParts(text, ClaimFields(who, stamp));
    PutAllClaim(Front(Split(text)), ClaimFields(who, stamp));
    ValueReadsBack(who);
    ClaimLine(who, stamp);
  }

  lemma HeadingIsNoDelimiter(line: string)
    requires "# " <= line
    ensures !Delimiter(line)
  {
    assert line[0] == '#';
    StripKeeps(line, '#');
    StripKeeps(LStrip(line), '#');
  }

  lemma DropBlankTwice(lines: Lines)
    ensures DropBlank(DropBlank(lines)) == DropBlank(lines)
  {
    var k := DropBlankDrops(lines);
  }

  /** A text that starts with its title has no fields. */
  lemma BareBody(body: Lines)
    requires Titled(body) && AllOneLine(body)
    ensures var lines := Split(Join(DropBlank(body)));
      lines == DropBlank(body) && Front(lines) == [] && Body(lines) == lines
  {
    hide Delimiter, NoDelimiter, OneLine, Split, Join, DropBlank;
    var k := DropBlankDrops(body);
    SplitJoin(DropBlank(body));
    HeadingIsNoDelimiter(DropBlank(body)[0]);
  }

  lemma NoFields(fm: Lines)
    requires fm == []
    ensures Count(Blocks(fm), CLAIMED_BY) == 0 && AsMap(Blocks(fm)) == map[]
  {
  }

  /** A released text is held by nobody, and stays regular. */
  lemma ReleaseFrees(text: string)
    requires Regular(text)
    ensures var after := FieldsSet(text, ReleaseFields());
      Holder(after) == None && Regular(after)
  {
    hide Splice, Blocks, AsMap, Count, SpliceAll, Split, Front, Body, Join, DropBlank, ValueOf, Blank;
    ClaimIsDict("", "");
    var after := FieldsSet(text, ReleaseFields());
    if StaysFramed(text, ReleaseFields()) {
      FieldsSetParts(text, ReleaseFields());
      PutAllClaim(Front(Split(text)), ReleaseFields());
    } else {
      BodyOneLine(text);
      BareBody(Body(Split(text)));
      DropBlankTwice(Body(Split(text)));
      NoFields(Front(Split(after)));
    }
  }

  lemma BodyOneLine(text: string)
    ensures AllOneLine(Body(Split(text)))
  {
    FrontIsFramed(text);
  }

  // --- what a claim writes ------------------------------------------------------------------------

  /** Neither claim field is given twice. */
  predicate OnceEach(text: string) {
    var bs := Blocks(Front(Split(text)));
    Count(bs, "claimed-by") <= 1 && Count(bs, "claimed-at") <= 1
  }

  lemma UpdateTwo(m: map<string, Lines>, a: Field, b: Field)
    ensures UpdateMap(m, [a, b]) ==
      var one := if a.value.None? then m - {a.key} else m[a.key := a.NewLines()];
      if b.value.None? then one - {b.key} else one[b.key := b.NewLines()]
  {
    var one := if a.value.None? then m - {a.key} else m[a.key := a.NewLines()];
    assert [a, b][1..] == [b] && [b][1..] == [];
    var two := if b.value.None? then one - {b.key} else one[b.key := b.NewLines()];
    assert UpdateMap(two, []) == two;
    assert UpdateMap(one, [b]) == two;
  }

  lemma OnceEachIsUnique(text: string, updates: seq<Field>)
    requires OnceEach(text) && |updates| == 2 && updates[0].key == "claimed-by" && updates[1].key == "claimed-at"
    ensures FieldsUnique(text, updates)
  {
    hide Blocks, Count, Front, Split;
  }

  /** A claim writes the name and the time, each on its line, and leaves every other field and the body alone. */
  lemma ClaimWrites(text: string, who: string, stamp: string)
    requires OneLine(who) && OneLine(stamp) && OnceEach(text)
    ensures var after := FieldsSet(text, ClaimFields(who, stamp));
      && FieldMap(after) == FieldMap(text)["claimed-by" := ["claimed-by: " + who]]["claimed-at" := ["claimed-at: " + stamp]]
      && Body(Split(after)) == Body(Split(text))
  {
    hide FieldMap, FieldsSet, UpdateMap, Split, Body, OneLine, StaysFramed, FieldsUnique, Dict, OnceEach;
    var updates := ClaimFields(who, stamp);
    ClaimIsDict(who, stamp);
    ClaimStaysFramed(text, who, stamp);
    OnceEachIsUnique(text, updates);
    FieldsSetUpdates(text, updates);
    UpdateTwo(FieldMap(text), updates[0], updates[1]);
    assert "claimed-by" + ": " + who == "claimed-by: " + who && "claimed-at" + ": " + stamp == "claimed-at: " + stamp;
  }

  lemma {:induction false} BlankHasNoFields(fm: Lines)
    requires AllBlank(fm)
    ensures AsMap(Blocks(fm)) == map[]
    decreases |fm|
  {
    hide Blank, Continues, KeyOf, Run;
    if fm != [] {
      var e := 1 + Run(fm[1..]);
      BlankHasNoFields(fm[e..]);
      assert KeyOf(fm[0]) == None by { BlankHasNoKey(fm[0]); }
      assert Blocks(fm)[0][0] == fm[0] && Blocks(fm)[1..] == Blocks(fm[e..]);
    }
  }

  lemma BlankHasNoKey(line: string)
    requires Blank(line)
    ensures KeyOf(line) == None
  {
    assert line != "" ==> IsSpace(line[0]);
  }

  /** A release takes both fields out, and leaves every other field alone. */
  lemma ReleaseWrites(text: string)
    requires OnceEach(text) && Titled(Body(Split(text)))
    ensures FieldMap(FieldsSet(text, ReleaseFields())) == FieldMap(text) - {"claimed-by", "claimed-at"}
  {
    hide UpdateMap, Split, Body, Front, Dict, OnceEach, Blank, SpliceAll, Blocks, AsMap, Titled, Count, Join, DropBlank;
    var updates := ReleaseFields();
    ClaimIsDict("", "");
    OnceEachIsUnique(text, updates);
    UpdateTwo(FieldMap(text), updates[0], updates[1]);
    var m := FieldMap(text);
    assert m - {"claimed-by"} - {"claimed-at"} == m - {"claimed-by", "claimed-at"};
    if StaysFramed(text, updates) {
      FieldsSetUpdates(text, updates);
    } else {
      var fm := Front(Split(text));
      SpliceAllIsPutAll(fm, updates);
      PutAllIsUpdateMap(Blocks(fm), updates);
      BlankHasNoFields(SpliceAll(fm, updates));
      BodyOneLine(text);
      BareBody(Body(Split(text)));
      NoFields(Front(Split(FieldsSet(text, updates))));
    }
  }
}
