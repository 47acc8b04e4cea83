/** The bounded digest of lint findings: `_render_grouped` of tools/lint/clang-tidy.py. */
module Digest {
  /** One failing check with its findings. */
  datatype Group = Group(check: string, items: seq<string>)

  // --- arithmetic of an allocation ----------------------------------------------------------------

  function Min(a: int, b: int): int {
    if a < b then a else b
  }

  function Max(a: int, b: int): int {
    if a < b then b else a
  }

  function Sum(s: seq<nat>): nat {
    if s == [] then 0 else s[0] + Sum(s[1..])
  }

  function Lengths(groups: seq<Group>): seq<nat> {
    seq(|groups|, i requires 0 <= i < |groups| => |groups[i].items|)
  }

  /** Water-filling: `level` lines for each group, one more for the first `cut` of them, as far as they have items. */
  function Filled(lens: seq<nat>, level: nat, cut: nat): seq<nat> {
    seq(|lens|, i requires 0 <= i < |lens| => Min(lens[i], if i < cut then level + 1 else level))
  }

  lemma {:induction false} SumUpdate(s: seq<nat>, i: nat, v: nat)
    requires i < |s|
    ensures Sum(s[i := v]) == Sum(s) - s[i] + v
  {
    if i == 0 {
      assert s[i := v][1..] == s[1..];
    } else {
      assert s[i := v][1..] == s[1..][i - 1 := v];
      SumUpdate(s[1..], i - 1, v);
    }
  }

  lemma {:induction false} SumMonotone(a: seq<nat>, b: seq<nat>)
    requires |a| == |b| && forall i | 0 <= i < |a| :: a[i] <= b[i]
    ensures Sum(a) <= Sum(b)
    ensures Sum(a) == Sum(b) ==> a == b
  {
    if a != [] {
      SumMonotone(a[1..], b[1..]);
      if Sum(a) == Sum(b) {
        assert a == [a[0]] + a[1..] && b == [b[0]] + b[1..];
      }
    }
  }

  lemma {:induction false} SumZeros(s: seq<nat>)
    requires forall i | 0 <= i < |s| :: s[i] == 0
    ensures Sum(s) == 0
  {
    if s != [] {
      SumZeros(s[1..]);
    }
  }

  lemma {:induction false} SumOnes(s: seq<nat>, cut: nat)
    requires cut <= |s| && forall i | 0 <= i < |s| :: s[i] <= if i < cut then 1 else 0
    ensures Sum(s) <= cut
  {
    if s != [] {
      SumOnes(s[1..], if cut == 0 then 0 else cut - 1);
    }
  }

  // --- the round-robin loop -----------------------------------------------------------------------

  function Budget(n: nat, limit: int): int {
    Max(n, limit - 2 * n)
  }

  /** One step of the inner loop turns one more of the groups into a filled one. */
  lemma FillStep(lens: seq<nat>, level: nat, i: nat, alloc: seq<nat>)
    requires i < |lens| && alloc == Filled(lens, level, i)
    ensures alloc[i] < lens[i] ==> alloc[i := alloc[i] + 1] == Filled(lens, level, i + 1)
    ensures alloc[i] >= lens[i] ==> alloc == Filled(lens, level, i + 1)
  {
  }

  lemma NextLevel(lens: seq<nat>, level: nat)
    ensures Filled(lens, level, |lens|) == Filled(lens, level + 1, 0)
  {
  }

  lemma FilledBelow(lens: seq<nat>, level: nat, cut: nat)
    ensures Sum(Filled(lens, level, cut)) <= Sum(lens)
    ensures Sum(Filled(lens, level, cut)) == Sum(lens) ==> Filled(lens, level, cut) == lens
  {
    SumMonotone(Filled(lens, level, cut), lens);
  }

  /** The allocation loop. It ends with a water-filling that spends the budget, or everything there is. */
  method Allocate(lens: seq<nat>, budget: nat) returns (alloc: seq<nat>, ghost level: nat, ghost cut: nat)
    ensures |alloc| == |lens| && cut <= |lens| && alloc == Filled(lens, level, cut)
    ensures Sum(alloc) == Min(budget, Sum(lens))
  {
    alloc := seq(|lens|, i => 0);
    level, cut := 0, 0;
    assert alloc == Filled(lens, 0, 0);
    SumZeros(alloc);
    var remaining, progressed := budget, true;
    while remaining > 0 && progressed
      invariant alloc == Filled(lens, level, cut) && cut <= |lens| && remaining >= 0
      invariant remaining > 0 ==> cut == 0
      invariant Sum(alloc) + remaining == budget
      invariant !progressed ==> alloc == lens
      decreases remaining, progressed
    {
      progressed := false;
      ghost var before := remaining;
      var i := 0;
      while i < |lens| && remaining > 0
        invariant i <= |lens| && alloc == Filled(lens, level, i) && remaining >= 0
        invariant Sum(alloc) + remaining == budget && remaining <= before
        invariant progressed <==> remaining < before
        invariant !progressed ==> forall k | 0 <= k < i :: alloc[k] >= lens[k]
      {
        FillStep(lens, level, i, alloc);
        if alloc[i] < lens[i] {
          SumUpdate(alloc, i, alloc[i] + 1);
          alloc := alloc[i := alloc[i] + 1];
          remaining := remaining - 1;
          progressed := true;
        }
        i := i + 1;
      }
      if remaining > 0 {
        NextLevel(lens, level);
        level, cut := level + 1, 0;
        if !progressed {
          assert alloc == lens;
        }
      } else {
        cut := i;
      }
    }
    FilledBelow(lens, level, cut);
  }

  /** A water-filling is decided by what it spends. */
  lemma FilledUnique(lens: seq<nat>, level: nat, cut: nat, level': nat, cut': nat)
    requires cut <= |lens| && cut' <= |lens|
    requires Sum(Filled(lens, level, cut)) == Sum(Filled(lens, level', cut'))
    ensures Filled(lens, level, cut) == Filled(lens, level', cut')
  {
    if level < level' || (level == level' && cut <= cut') {
      SumMonotone(Filled(lens, level, cut), Filled(lens, level', cut'));
    } else {
      SumMonotone(Filled(lens, level', cut'), Filled(lens, level, cut));
    }
  }

  /** With a line for every check in the budget, every check with findings shows at least one. */
  lemma EveryCheckShows(lens: seq<nat>, budget: nat, level: nat, cut: nat, i: nat)
    requires |lens| <= budget && cut <= |lens| && i < |lens| && lens[i] > 0
    requires Sum(Filled(lens, level, cut)) == Min(budget, Sum(lens))
    ensures Filled(lens, level, cut)[i] >= 1
  {
    var alloc := Filled(lens, level, cut);
    if level == 0 && i >= cut {
      SumOnes(alloc, cut);
      FilledBelow(lens, level, cut);
    }
  }

  // --- the order of the checks --------------------------------------------------------------------

  predicate LexLeq(a: string, b: string) {
    a == "" || (b != "" && (a[0] < b[0] || (a[0] == b[0] && LexLeq(a[1..], b[1..]))))
  }

  lemma {:induction false} LexTotal(a: string, b: string)
    ensures LexLeq(a, b) || LexLeq(b, a)
  {
    if a != "" && b != "" {
      LexTotal(a[1..], b[1..]);
    }
  }

  lemma {:induction false} LexTransitive(a: string, b: string, c: string)
    requires LexLeq(a, b) && LexLeq(b, c)
    ensures LexLeq(a, c)
  {
    if a != "" && a[0] == b[0] && b[0] == c[0] {
      LexTransitive(a[1..], b[1..], c[1..]);
    }
  }

  /** The sort key `(-len(items), check)`. */
  predicate Before(a: Group, b: Group) {
    |a.items| > |b.items| || (|a.items| == |b.items| && LexLeq(a.check, b.check))
  }

  predicate Ordered(groups: seq<Group>) {
    forall i, j | 0 <= i < j < |groups| :: Before(groups[i], groups[j])
  }

  /** What the order means: more findings come first, and of equally many the name that sorts first. */
  lemma OrderedMeans(groups: seq<Group>, i: nat, j: nat)
    requires Ordered(groups) && i < j < |groups|
    ensures |groups[i].items| >= |groups[j].items|
    ensures |groups[i].items| == |groups[j].items| ==> Sorts(groups[i].check, groups[j].check)
  {
    hide LexLeq;
    assert Before(groups[i], groups[j]);
    if |groups[i].items| == |groups[j].items| {
      LexIs(groups[i].check, groups[j].check);
    }
  }

  /** One name is the start of the other, or has the smaller character where they first differ. */
  predicate Sorts(a: string, b: string) {
    a <= b || exists k | 0 <= k < |a| && k < |b| :: a[..k] == b[..k] && a[k] < b[k]
  }

  lemma {:induction false} LexIs(a: string, b: string)
    requires LexLeq(a, b)
    ensures Sorts(a, b)
  {
    if a != "" && a[0] == b[0] {
      LexIs(a[1..], b[1..]);
      assert a == [a[0]] + a[1..] && b == [b[0]] + b[1..];
      if !(a[1..] <= b[1..]) {
        var k :| 0 <= k < |a[1..]| && k < |b[1..]| && a[1..][..k] == b[1..][..k] && a[1..][k] < b[1..][k];
        assert a[..k + 1] == [a[0]] + a[1..][..k] && b[..k + 1] == [b[0]] + b[1..][..k];
      }
    } else if a != "" {
      assert a[..0] == b[..0];
    }
  }

  function Insert(g: Group, groups: seq<Group>): seq<Group> {
    if groups == [] || Before(g, groups[0]) then [g] + groups else [groups[0]] + Insert(g, groups[1..])
  }

  /** `sorted(groups.items(), key=...)` */
  function Sorted(groups: seq<Group>): seq<Group> {
    if groups == [] then [] else Insert(groups[0], Sorted(groups[1..]))
  }

  lemma {:induction false} InsertKeeps(g: Group, groups: seq<Group>)
    ensures multiset(Insert(g, groups)) == multiset(groups) + multiset{g}
  {
    hide Before;
    if groups != [] && !Before(g, groups[0]) {
      InsertKeeps(g, groups[1..]);
      assert groups == [groups[0]] + groups[1..];
    }
  }

  lemma {:induction false} InsertOrders(g: Group, groups: seq<Group>)
    requires Ordered(groups)
    ensures Ordered(Insert(g, groups))
  {
    hide Before;
    if groups == [] {
    } else if Before(g, groups[0]) {
      forall j | 0 <= j < |groups| ensures Before(g, groups[j]) {
        if j > 0 {
          BeforeTransitive(g, groups[0], groups[j]);
        }
      }
    } else {
      var rest := groups[1..];
      InsertOrders(g, rest);
      BeforeTotal(g, groups[0]);
      InsertKeeps(g, rest);
      forall x <- Insert(g, rest) ensures Before(groups[0], x) {
        assert x in multiset(Insert(g, rest));
        if x != g {
          var j :| 0 <= j < |rest| && rest[j] == x;
          assert x == groups[j + 1];
        }
      }
      assert Insert(g, groups) == [groups[0]] + Insert(g, rest);
    }
  }

  lemma BeforeTotal(a: Group, b: Group)
    ensures Before(a, b) || Before(b, a)
  {
    LexTotal(a.check, b.check);
  }

  lemma BeforeTransitive(a: Group, b: Group, c: Group)
    requires Before(a, b) && Before(b, c)
    ensures Before(a, c)
  {
    if |a.items| == |c.items| {
      LexTransitive(a.check, b.check, c.check);
    }
  }

  lemma {:induction false} SortedOrders(groups: seq<Group>)
    ensures Ordered(Sorted(groups)) && multiset(Sorted(groups)) == multiset(groups) && |Sorted(groups)| == |groups|
  {
    hide Before, Ordered, Insert;
    if groups == [] {
      OrderedNothing();
    } else {
      SortedOrders(groups[1..]);
      InsertOrders(groups[0], Sorted(groups[1..]));
      InsertKeeps(groups[0], Sorted(groups[1..]));
      assert groups == [groups[0]] + groups[1..];
      assert |multiset(Sorted(groups))| == |multiset(groups)|;
    }
  }

  lemma OrderedNothing()
    ensures Ordered([])
  {
  }

  // --- rendering ----------------------------------------------------------------------------------

  datatype Line = Header(check: string, count: nat) | Why(text: string) | Item(text: string) | More(hidden: nat)

  function Items(items: seq<string>): seq<Line> {
    seq(|items|, i requires 0 <= i < |items| => Item(items[i]))
  }

  function Section(g: Group, shown: nat, rationales: map<string, string>): seq<Line> {
    [Header(g.check, |g.items|)]
    + (if g.check in rationales && rationales[g.check] != "" then [Why(rationales[g.check])] else [])
    + Items(g.items[..Min(shown, |g.items|)])
    + if shown < |g.items| then [More(|g.items| - shown)] else []
  }

  /** The findings among the lines. */
  function Texts(lines: seq<Line>): seq<string> {
    if lines == [] then [] else (if lines[0].Item? then [lines[0].text] else []) + Texts(lines[1..])
  }

  /** How many findings the markers among the lines leave out. */
  function Hidden(lines: seq<Line>): nat {
    if lines == [] then 0 else (if lines[0].More? then lines[0].hidden else 0) + Hidden(lines[1..])
  }

  lemma {:induction false} TextsConcat(a: seq<Line>, b: seq<Line>)
    ensures Texts(a + b) == Texts(a) + Texts(b) && Hidden(a + b) == Hidden(a) + Hidden(b)
  {
    if a == [] {
      assert a + b == b;
    } else {
      assert (a + b)[1..] == a[1..] + b;
      TextsConcat(a[1..], b);
    }
  }

  lemma {:induction false} TextsItems(items: seq<string>)
    ensures Texts(Items(items)) == items && Hidden(Items(items)) == 0
  {
    if items != [] {
      assert Items(items)[1..] == Items(items[1..]);
      TextsItems(items[1..]);
      assert items == [items[0]] + items[1..];
    }
  }

  lemma TextsOne(line: Line)
    ensures Texts([line]) == (if line.Item? then [line.text] else []) && Hidden([line]) == if line.More? then line.hidden else 0
  {
    assert [line][1..] == [];
  }

  lemma TextsNone()
    ensures Texts([]) == [] && Hidden([]) == 0
  {
  }

  /** A section tells the truth: its header counts all findings, the rationale follows it if there is one, the findings
      shown are the first ones in order, and a marker stands for the rest exactly when there is a rest. */
  lemma SectionTells(g: Group, shown: nat, rationales: map<string, string>)
    requires shown <= |g.items|
    ensures var lines := Section(g, shown, rationales);
      && lines[0] == Header(g.check, |g.items|)
      && (g.check in rationales && rationales[g.check] != "" ==> |lines| > 1 && lines[1] == Why(rationales[g.check]))
      && Texts(lines) == g.items[..shown] && shown + Hidden(lines) == |g.items|
      && (shown < |g.items| <==> lines[|lines| - 1].More?)
  {
    hide Texts, Hidden;
    var why: seq<Line> := if g.check in rationales && rationales[g.check] != "" then [Why(rationales[g.check])] else [];
    var more: seq<Line> := if shown < |g.items| then [More(|g.items| - shown)] else [];
    var items := Items(g.items[..shown]);
    var header := Header(g.check, |g.items|);
    assert Section(g, shown, rationales) == [header] + why + items + more;
    TextsConcat([header] + why + items, more);
    TextsConcat([header] + why, items);
    TextsConcat([header], why);
    TextsItems(g.items[..shown]);
    TextsOne(header);
    TextsNone();
    if why != [] {
      TextsOne(why[0]);
    }
    if more != [] {
      TextsOne(more[0]);
    }
  }

  function Sections(groups: seq<Group>, alloc: seq<nat>, rationales: map<string, string>): seq<Line>
    requires |groups| == |alloc|
  {
    if groups == [] then []
    else Section(groups[0], alloc[0], rationales) + Sections(groups[1..], alloc[1..], rationales)
  }

  /** Lines other than rationales. */
  function Bulk(lines: seq<Line>): nat {
    if lines == [] then 0 else (if lines[0].Why? then 0 else 1) + Bulk(lines[1..])
  }

  lemma {:induction false} BulkConcat(a: seq<Line>, b: seq<Line>)
    ensures Bulk(a + b) == Bulk(a) + Bulk(b)
  {
    if a == [] {
      assert a + b == b;
    } else {
      assert (a + b)[1..] == a[1..] + b;
      BulkConcat(a[1..], b);
    }
  }

  lemma {:induction false} BulkItems(items: seq<string>)
    ensures Bulk(Items(items)) == |items|
  {
    if items != [] {
      assert Items(items)[1..] == Items(items[1..]);
      BulkItems(items[1..]);
    }
  }

  lemma SectionBulk(g: Group, shown: nat, rationales: map<string, string>)
    requires shown <= |g.items|
    ensures Bulk(Section(g, shown, rationales)) <= shown + 2
    ensures |Section(g, shown, rationales)| <= Bulk(Section(g, shown, rationales)) + 1
  {
    hide Bulk, Items;
    var header: seq<Line> := [Header(g.check, |g.items|)];
    var why: seq<Line> := if g.check in rationales && rationales[g.check] != "" then [Why(rationales[g.check])] else [];
    var items := Items(g.items[..shown]);
    var more: seq<Line> := if shown < |g.items| then [More(|g.items| - shown)] else [];
    assert Section(g, shown, rationales) == header + why + items + more;
    BulkConcat(header + why + items, more);
    BulkConcat(header + why, items);
    BulkConcat(header, why);
    BulkItems(g.items[..shown]);
    BulkOne(header);
    BulkOne(why);
    BulkOne(more);
    assert |items| == shown by { ItemsLength(g.items[..shown]); }
  }

  lemma ItemsLength(items: seq<string>)
    ensures |Items(items)| == |items|
  {
  }

  lemma BulkOne(lines: seq<Line>)
    requires |lines| <= 1
    ensures Bulk(lines) == if lines == [] || lines[0].Why? then 0 else 1
  {
    assert lines != [] ==> lines[1..] == [];
  }

  lemma {:induction false} SectionsBulk(groups: seq<Group>, alloc: seq<nat>, rationales: map<string, string>)
    requires |groups| == |alloc| && forall i | 0 <= i < |groups| :: alloc[i] <= |groups[i].items|
    ensures Bulk(Sections(groups, alloc, rationales)) <= Sum(alloc) + 2 * |groups|
    ensures |Sections(groups, alloc, rationales)| <= Bulk(Sections(groups, alloc, rationales)) + |groups|
  {
    hide Bulk, Section;
    if groups != [] {
      SectionsBulk(groups[1..], alloc[1..], rationales);
      SectionBulk(groups[0], alloc[0], rationales);
      BulkConcat(Section(groups[0], alloc[0], rationales), Sections(groups[1..], alloc[1..], rationales));
    } else {
      BulkOne([]);
    }
  }

  /** The rendering loop: header, rationale, shown items and the marker of each check, appended in turn. */
  method Render(ordered: seq<Group>, alloc: seq<nat>, rationales: map<string, string>) returns (lines: seq<Line>)
    requires |ordered| == |alloc|
    ensures lines == Sections(ordered, alloc, rationales)
  {
    hide Section, Sections;
    lines := [];
    assert ordered[0..] == ordered && alloc[0..] == alloc;
    for i := 0 to |ordered|
      invariant lines + Sections(ordered[i..], alloc[i..], rationales) == Sections(ordered, alloc, rationales)
    {
      SectionsFrom(ordered, alloc, rationales, i);
      lines := lines + Section(ordered[i], alloc[i], rationales);
    }
    assert ordered[|ordered|..] == [] && alloc[|alloc|..] == [];
    NoSections(rationales);
  }

  lemma SectionsFrom(groups: seq<Group>, alloc: seq<nat>, rationales: map<string, string>, i: nat)
    requires |groups| == |alloc| && i < |groups|
    ensures Sections(groups[i..], alloc[i..], rationales)
      == Section(groups[i], alloc[i], rationales) + Sections(groups[i + 1..], alloc[i + 1..], rationales)
  {
    hide Section;
    assert groups[i..][1..] == groups[i + 1..] && alloc[i..][1..] == alloc[i + 1..];
  }

  lemma NoSections(rationales: map<string, string>)
    ensures Sections([], [], rationales) == []
  {
  }

  /** `alloc` shares the lines that `limit` leaves to the findings of `ordered`. */
  ghost predicate Shared(ordered: seq<Group>, alloc: seq<nat>, limit: int) {
    && |alloc| == |ordered|
    && (exists level: nat, cut: nat :: cut <= |ordered| && alloc == Filled(Lengths(ordered), level, cut))
    && Sum(alloc) == Min(Budget(|ordered|, limit), Sum(Lengths(ordered)))
  }

  /** The findings get what two lines a check leave of the limit, and at least a line a check; all of it is used, unless
      everything is shown. */
  lemma SharedSpends(ordered: seq<Group>, alloc: seq<nat>, limit: int)
    requires Shared(ordered, alloc, limit)
    ensures alloc == Lengths(ordered) || Sum(alloc) == if limit - 2 * |ordered| < |ordered| then |ordered| else limit - 2 * |ordered|
  {
    hide Sum, Lengths, Filled;
    var lens := Lengths(ordered);
    var level: nat, cut: nat :| cut <= |ordered| && alloc == Filled(lens, level, cut);
    FilledBelow(lens, level, cut);
  }

  /** What a fair share gives every check. */
  lemma SharedShows(ordered: seq<Group>, alloc: seq<nat>, limit: int, i: nat)
    requires Shared(ordered, alloc, limit) && i < |ordered|
    ensures alloc[i] <= |ordered[i].items|
    ensures ordered[i].items != [] ==> alloc[i] >= 1
  {
    hide Sum;
    var level: nat, cut: nat :| cut <= |ordered| && alloc == Filled(Lengths(ordered), level, cut);
    if ordered[i].items != [] {
      EveryCheckShows(Lengths(ordered), Budget(|ordered|, limit), level, cut, i);
    }
  }

  /** The digest stays within the limit, or three lines a check, and at most one rationale a check on top. */
  lemma DigestBound(ordered: seq<Group>, alloc: seq<nat>, limit: int, rationales: map<string, string>)
    requires Shared(ordered, alloc, limit)
    ensures Bulk(Sections(ordered, alloc, rationales)) <= Max(limit, 3 * |ordered|)
    ensures |Sections(ordered, alloc, rationales)| <= Bulk(Sections(ordered, alloc, rationales)) + |ordered|
  {
    hide Sum, Bulk, Sections, Filled, Lengths;
    forall i | 0 <= i < |ordered| ensures alloc[i] <= |ordered[i].items| {
      SharedShows(ordered, alloc, limit, i);
    }
    SectionsBulk(ordered, alloc, rationales);
  }

  /** `_render_grouped`: the checks by falling count, each with its fair share of the lines. */
  method RenderGrouped(groups: seq<Group>, limit: int, rationales: map<string, string>)
    returns (lines: seq<Line>, ordered: seq<Group>, alloc: seq<nat>)
    ensures multiset(ordered) == multiset(groups) && Ordered(ordered) && Shared(ordered, alloc, limit)
    ensures lines == Sections(ordered, alloc, rationales)
    ensures forall i | 0 <= i < |ordered| && ordered[i].items != [] :: alloc[i] >= 1
    ensures Bulk(lines) <= Max(limit, 3 * |groups|) && |lines| <= Bulk(lines) + |groups|
  {
    hide Before, Ordered, Sum, Bulk, Section, Sections, Filled, Sorted;
    SortedOrders(groups);
    ordered := Sorted(groups);
    var lens := Lengths(ordered);
    ghost var level, cut;
    alloc, level, cut := Allocate(lens, Budget(|groups|, limit));
    assert Shared(ordered, alloc, limit);
    forall i | 0 <= i < |ordered| && ordered[i].items != [] ensures alloc[i] >= 1 {
      SharedShows(ordered, alloc, limit, i);
    }
    lines := Render(ordered, alloc, rationales);
    DigestBound(ordered, alloc, limit, rationales);
  }
}
