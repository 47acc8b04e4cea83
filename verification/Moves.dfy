/** Moving an issue without breaking links: `_move` of tools/issues/issues.py. */
module Moves {
  import opened Text
  import opened Frontmatter
  import opened Links

  /** Where a link leads, read in a directory; nowhere in the repository for a URL. */
  function Leads(dir: Path, t: Token): Option<Path>
    requires t.Link?
  {
    if Relative(t.target) then Some(Resolve(dir, t.target)) else None
  }

  function Parent(p: Path): Path {
    if p == [] then [] else p[..|p| - 1]
  }

  /** `rebase` of `_move` */
  function Rebase(oldDir: Path, newDir: Path): string -> Option<string> {
    t => Some(Relpath(Resolve(oldDir, t), newDir))
  }

  /** `retarget` of `_move` */
  function Retarget(dir: Path, from: Path, to: Path): string -> Option<string> {
    t => if Resolve(dir, t) == from then Some(Relpath(to, dir)) else None
  }

  /** Characters that are no markdown link syntax. */
  predicate Spelled(s: string) {
    forall i | 0 <= i < |s| :: TargetChar(s[i])
  }

  /** The part of `p` that the way from `d` spells out can stand in a link. */
  predicate Spellable(p: Path, d: Path) {
    forall i | Common(p, d) <= i < |p| :: Spelled(p[i])
  }

  /** The way from `d` to `p` goes straight down into a name that reads like the scheme of a URL. */
  predicate UrlLike(p: Path, d: Path) {
    Common(p, d) == |d| < |p| && Scheme(p[|d|])
  }

  lemma {:induction false} SlashedSpelled(cs: seq<string>)
    requires cs != [] && forall i | 0 <= i < |cs| :: cs[i] != ""
    ensures Slashed(cs) != "" && Slashed(cs)[0] == cs[0][0]
    ensures Spelled(Slashed(cs)) <==> forall i | 0 <= i < |cs| :: Spelled(cs[i])
  {
    if |cs| > 1 {
      var rest := Slashed(cs[1..]);
      SlashedSpelled(cs[1..]);
      SpelledConcat(cs[0] + "/", rest);
      SpelledConcat(cs[0], "/");
      assert Spelled("/");
      assert cs == [cs[0]] + cs[1..];
    }
  }

  lemma SpelledConcat(a: string, b: string)
    ensures Spelled(a + b) <==> Spelled(a) && Spelled(b)
  {
    hide TargetChar;
    var s := a + b;
    if Spelled(s) {
      assert forall i | 0 <= i < |a| :: s[i] == a[i];
      assert forall i | 0 <= i < |b| :: s[|a| + i] == b[i];
    }
  }

  lemma {:induction false} SchemeTailStops(c: string, rest: string)
    requires '/' !in c
    ensures SchemeTail(c + "/" + rest) <==> SchemeTail(c)
  {
    var s := c + "/" + rest;
    if c == "" {
      assert s[0] == '/';
    } else {
      SchemeTailStops(c[1..], rest);
      assert s[0] == c[0] && s[1..] == c[1..] + "/" + rest;
    }
  }

  /** Only the first component can read like a scheme. */
  lemma SchemeOfFirst(cs: seq<string>)
    requires cs != [] && NoSlash(cs) && cs[0] != ""
    ensures Slashed(cs) != "" && Slashed(cs)[0] == cs[0][0]
    ensures Scheme(Slashed(cs)) <==> Scheme(cs[0])
  {
    hide SchemeTail;
    if |cs| > 1 {
      var rest := Slashed(cs[1..]);
      assert Slashed(cs)[1..] == cs[0][1..] + "/" + rest;
      SchemeTailStops(cs[0][1..], rest);
    }
  }

  lemma {:induction false} UpsAt(n: nat, i: nat)
    requires i < |Ups(n)|
    ensures Ups(n)[i] == ".."
  {
    if i > 0 {
      UpsAt(n - 1, i - 1);
    }
  }

  lemma RouteFirst(ups: nat, rest: Path)
    ensures var cs := Route(ups, rest);
      cs != [] && cs[0] == (if ups > 0 then ".." else if rest != [] then rest[0] else ".")
  {
    hide Ups, NoSlash;
    UpsNoSlash(ups);
    if ups > 0 {
      UpsAt(ups, 0);
    }
  }

  lemma RelativeFirst(p: Path, d: Path)
    ensures var cs, n := RelativeTo(p, d), Common(p, d);
      cs != [] && cs[0] == (if n < |d| then ".." else if n < |p| then p[n] else ".")
  {
    hide Common, Route;
    var n := Common(p, d);
    RouteFirst(|d| - n, p[n..]);
  }

  /** A component of a relative path is a step, or a name of the path behind the common part. */
  lemma RelativeAt(p: Path, d: Path, i: nat)
    requires i < |RelativeTo(p, d)|
    ensures var c := RelativeTo(p, d)[i];
      c == "." || c == ".." || c in p[Common(p, d)..]
  {
    hide Common, Ups, NoSlash;
    var n := Common(p, d);
    UpsNoSlash(|d| - n);
    if i < |d| - n {
      UpsAt(|d| - n, i);
    }
  }

  /** Every name behind the common part is spelled out. */
  lemma RelativeSpells(p: Path, d: Path, k: nat)
    requires Common(p, d) <= k < |p|
    ensures p[k] in RelativeTo(p, d)
  {
    hide Common, Ups;
    var n := Common(p, d);
    var ups := Ups(|d| - n);
    assert (ups + p[n..])[|ups| + k - n] == p[k];
  }

  lemma Steps()
    ensures Spelled(".") && Spelled("..") && !Scheme(".") && !Scheme("..")
  {
  }

  /** The relative path is a link target again if and only if what it spells out can stand in a link. */
  lemma RelpathIsTarget(p: Path, d: Path)
    requires AllNamed(p)
    ensures SafeTarget(Relpath(p, d)) <==> Spellable(p, d)
  {
    hide Common, Slashed, TargetChar, RelativeTo, Spelled;
    var cs, n := RelativeTo(p, d), Common(p, d);
    RelativeFirst(p, d);
    Steps();
    forall i | 0 <= i < |cs| ensures cs[i] != "" && (Spellable(p, d) ==> Spelled(cs[i])) {
      RelativeAt(p, d, i);
      if cs[i] in p[n..] {
        var k :| 0 <= k < |p[n..]| && p[n..][k] == cs[i];
        assert cs[i] == p[n + k];
      }
    }
    SlashedSpelled(cs);
    assert SafeTarget(Slashed(cs)) <==> Spelled(Slashed(cs)) by { SafeIsSpelled(Slashed(cs)); }
    if Spelled(Slashed(cs)) {
      forall k | n <= k < |p| ensures Spelled(p[k]) {
        RelativeSpells(p, d, k);
        var i :| 0 <= i < |cs| && cs[i] == p[k];
      }
    }
  }

  lemma SafeIsSpelled(s: string)
    requires s != ""
    ensures SafeTarget(s) <==> Spelled(s)
  {
    hide TargetChar;
  }

  /** It is a relative one if and only if it does not start like a URL. */
  lemma RelpathIsRelative(p: Path, d: Path)
    requires AllNamed(p)
    ensures Relative(Relpath(p, d)) <==> !UrlLike(p, d)
  {
    hide Common, Slashed, SchemeTail, RelativeTo;
    RelativeFirst(p, d);
    RelativeNoSlash(p, d);
    Steps();
    SchemeOfFirst(RelativeTo(p, d));
  }

  /** Every relative link of `text` leads to a place that a link in `newDir` can spell. */
  predicate LinksSpellable(text: string, oldDir: Path, newDir: Path) {
    forall t <- Scan(text) | t.Link? && Relative(t.target) :: Spellable(Resolve(oldDir, t.target), newDir)
  }

  /** The rebased text reads as the rebased links if and only if each can be spelled. */
  lemma RebasedReads(text: string, oldDir: Path, newDir: Path)
    requires AllNamed(oldDir)
    ensures Scan(RewriteLinks(text, Rebase(oldDir, newDir))) == RewriteTokens(Scan(text), Rebase(oldDir, newDir))
      <==> LinksSpellable(text, oldDir, newDir)
  {
    hide Scan, Show, Resolve, Relpath, AllNamed, SafeTarget, Relative, RewriteLinks, Spellable, RewriteTokens;
    var rewrite := Rebase(oldDir, newDir);
    forall t <- Scan(text) | t.Link? && Relative(t.target)
      ensures SafeTarget(rewrite(t.target).value) <==> Spellable(Resolve(oldDir, t.target), newDir)
    {
      ResolveNamed(oldDir, t.target);
      RelpathIsTarget(Resolve(oldDir, t.target), newDir);
    }
    RewriteReads(text, rewrite);
  }

  /** Some link of `text` leads to `p`. */
  predicate LinksTo(text: string, dir: Path, p: Path) {
    exists t <- Scan(text) :: t.Link? && Leads(dir, t) == Some(p)
  }

  /** Another file reads as its links with those to the old place replaced, if and only if it has none or the new place
      can be spelled. */
  lemma RetargetedReads(text: string, dir: Path, from: Path, to: Path)
    requires AllNamed(to)
    ensures Scan(RewriteLinks(text, Retarget(dir, from, to))) == RewriteTokens(Scan(text), Retarget(dir, from, to))
      <==> (LinksTo(text, dir, from) ==> Spellable(to, dir))
  {
    hide Scan, Show, Resolve, Relpath, AllNamed, SafeTarget, Relative, RewriteLinks, Spellable, RewriteTokens;
    RelpathIsTarget(to, dir);
    RewriteReads(text, Retarget(dir, from, to));
  }

  /** A link that is read as it is and leads to `place`. */
  predicate ReadsTo(dir: Path, t: Token, place: Option<Path>) {
    t.Link? && Scan(ShowToken(t)) == [t] && Leads(dir, t) == place
  }

  /** The way from `d` to `p` makes a link: it can be spelled, and does not start like a URL. */
  predicate Linkable(p: Path, d: Path) {
    Spellable(p, d) && !UrlLike(p, d)
  }

  /** One rebased link: it is read as it is if and only if the place can be spelled, and leads there if and only if
      it does not start like a URL. */
  lemma RebasedLink(t: Token, oldDir: Path, newDir: Path)
    requires AllNamed(oldDir) && t.Link? && Safe(t)
    ensures var u := RewriteToken(t, Rebase(oldDir, newDir));
      var p := Resolve(oldDir, t.target);
      && u.Link? && u.fragment == t.fragment
      && (Scan(ShowToken(u)) == [u] <==> (Relative(t.target) ==> Spellable(p, newDir)))
      && (Leads(newDir, u) == Leads(oldDir, t) <==> (Relative(t.target) ==> !UrlLike(p, newDir)))
      && (Relative(t.target) && UrlLike(p, newDir) ==> Leads(newDir, u) == None)
  {
    hide Resolve, Relpath, AllNamed, Relative, UrlLike, SafeTarget, SafeFragment, Scan, Spellable;
    var u := RewriteToken(t, Rebase(oldDir, newDir));
    AloneSafe(u);
    if Relative(t.target) {
      var p := Resolve(oldDir, t.target);
      ResolveNamed(oldDir, t.target);
      RelpathIsTarget(p, newDir);
      RelpathIsRelative(p, newDir);
      RelpathResolves(p, newDir);
    }
  }

  /** The links of a moved text: every one is read on its own among the same characters, keeps its fragment, and is read
      and leads where it led, if and only if the way there makes a link. */
  lemma MovedFileKeepsLinks(text: string, oldDir: Path, newDir: Path)
    requires AllNamed(oldDir)
    ensures var before := Scan(text);
      var us := RewriteTokens(before, Rebase(oldDir, newDir));
      && Scan(RewriteLinks(text, Rebase(oldDir, newDir))) == Alone(us)
      && forall i | 0 <= i < |before| ::
           if before[i].Char? then us[i] == before[i]
           else us[i].Link? && us[i].fragment == before[i].fragment
                && (ReadsTo(newDir, us[i], Leads(oldDir, before[i]))
                    <==> (Relative(before[i].target) ==> Linkable(Resolve(oldDir, before[i].target), newDir)))
  {
    hide Scan, Resolve, AllNamed, Relative, RewriteLinks, UrlLike, Leads, Spellable, Rebase, Safe, Alone;
    RewriteReadsEach(text, Rebase(oldDir, newDir));
    ScanSafe(text);
    var before := Scan(text);
    forall i | 0 <= i < |before| && before[i].Link?
      ensures var u := RewriteToken(before[i], Rebase(oldDir, newDir));
        && u.Link? && u.fragment == before[i].fragment
        && (ReadsTo(newDir, u, Leads(oldDir, before[i]))
            <==> (Relative(before[i].target) ==> Linkable(Resolve(oldDir, before[i].target), newDir)))
    {
      assert before[i] in Scan(text);
      RebasedLink(before[i], oldDir, newDir);
    }
  }

  /** Links of another file: those to the old place keep their fragment, and are read and lead to the new one if and only
      if the way there makes a link; every other link, and every other character, is untouched. */
  lemma OtherFilesFollow(text: string, dir: Path, from: Path, to: Path)
    requires AllNamed(to)
    ensures var before := Scan(text);
      var us := RewriteTokens(before, Retarget(dir, from, to));
      && Scan(RewriteLinks(text, Retarget(dir, from, to))) == Alone(us)
      && forall i | 0 <= i < |before| ::
           if before[i].Link? && Leads(dir, before[i]) == Some(from)
           then us[i].Link? && us[i].fragment == before[i].fragment
                && (ReadsTo(dir, us[i], Some(to)) <==> Linkable(to, dir))
           else us[i] == before[i] && (us[i].Link? ==> ReadsTo(dir, us[i], Leads(dir, before[i])))
  {
    hide Scan, Resolve, Relpath, AllNamed, Relative, RewriteLinks, Spellable, UrlLike, Alone, SafeTarget, SafeFragment;
    var rewrite := Retarget(dir, from, to);
    RewriteReadsEach(text, rewrite);
    ScanSafe(text);
    RelpathIsTarget(to, dir);
    RelpathIsRelative(to, dir);
    RelpathResolves(to, dir);
    var before := Scan(text);
    forall i | 0 <= i < |before| && before[i].Link?
      ensures var u := RewriteToken(before[i], rewrite);
        if Leads(dir, before[i]) == Some(from)
        then u.Link? && u.fragment == before[i].fragment && (ReadsTo(dir, u, Some(to)) <==> Linkable(to, dir))
        else u == before[i] && ReadsTo(dir, u, Leads(dir, before[i]))
    {
      assert before[i] in Scan(text) && Safe(before[i]);
      AloneSafe(RewriteToken(before[i], rewrite));
    }
  }

  /** Where a link of the moved file should lead. */
  function Follow(t: Token, from: Path, to: Path): Option<Path>
    requires t.Link?
  {
    if Leads(Parent(from), t) == Some(from) then Some(to) else Leads(Parent(from), t)
  }

  /** A link of the moved file to itself still leads to the old place, so the link graph follows the move if and only if
      there is none, and the way to every other place makes a link. */
  lemma SelfLinksStay(text: string, from: Path, to: Path)
    requires from != to && AllNamed(Parent(from))
    ensures var before := Scan(text);
      var us := RewriteTokens(before, Rebase(Parent(from), Parent(to)));
      && Scan(RewriteLinks(text, Rebase(Parent(from), Parent(to)))) == Alone(us)
      && ((forall i | 0 <= i < |before| && before[i].Link? :: ReadsTo(Parent(to), us[i], Follow(before[i], from, to)))
          <==> forall i | 0 <= i < |before| && before[i].Link? ::
                 && Leads(Parent(from), before[i]) != Some(from)
                 && (Relative(before[i].target) ==> Linkable(Resolve(Parent(from), before[i].target), Parent(to))))
  {
    hide Scan, RewriteLinks, Resolve, AllNamed, Parent, Leads, Spellable, UrlLike, Relative, Rebase, Alone, Safe, RewriteToken;
    RewriteReadsEach(text, Rebase(Parent(from), Parent(to)));
    ScanSafe(text);
    var before := Scan(text);
    forall i | 0 <= i < |before| && before[i].Link?
      ensures var u := RewriteToken(before[i], Rebase(Parent(from), Parent(to)));
        ReadsTo(Parent(to), u, Follow(before[i], from, to)) <==>
          && Leads(Parent(from), before[i]) != Some(from)
          && (Relative(before[i].target) ==> Linkable(Resolve(Parent(from), before[i].target), Parent(to)))
    {
      assert before[i] in Scan(text) && Safe(before[i]);
      RebasedLink(before[i], Parent(from), Parent(to));
    }
  }

  // --- the whole file -----------------------------------------------------------------------------

  function LinksOf(ts: seq<Token>): seq<Token> {
    if ts == [] then [] else (if ts[0].Link? then [ts[0]] else []) + LinksOf(ts[1..])
  }

  lemma {:induction false} LinksConcat(a: seq<Token>, b: seq<Token>)
    ensures LinksOf(a + b) == LinksOf(a) + LinksOf(b)
  {
    hide LinksOf;
    if a == [] {
      assert a + b == b;
      NoLinksInNothing();
    } else {
      var t, rest := a[0], a[1..];
      assert a + b == [t] + (rest + b) && a == [t] + rest;
      LinksConcat(rest, b);
      LinksCons(t, rest);
      LinksCons(t, rest + b);
    }
  }

  /** The links of lines are those of one part and those of the other. */
  lemma LinksOfLines(a: Lines, b: Lines)
    ensures LinksOf(Scan(Join(a + b))) == LinksOf(Scan(Join(a))) + LinksOf(Scan(Join(b)))
  {
    hide Scan, LinksOf, Join;
    assert LinksOf(Scan(Join([]))) == [] by { NoLinks(); }
    if a == [] {
      assert a + b == b;
    } else if b == [] {
      assert a + b == a;
    } else {
      JoinConcat(a, b);
      ScanLines(Join(a), Join(b));
      LinksConcat(Scan(Join(a)) + [Char('\n')], Scan(Join(b)));
      LinksConcat(Scan(Join(a)), [Char('\n')]);
      assert LinksOf([Char('\n')]) == [] by { NoLinks(); }
    }
  }

  lemma NoLinks()
    ensures LinksOf(Scan(Join([]))) == [] && LinksOf([Char('\n')]) == []
  {
  }

  lemma {:induction false} BlankHasNoLink(line: string)
    requires Blank(line)
    ensures LinksOf(Scan(line)) == []
  {
    hide Scan, LinksOf, IsSpace;
    if line == "" {
      NoLinks();
      assert Join([]) == "";
    } else {
      var init, c := line[..|line| - 1], line[|line| - 1];
      assert line == init + [c];
      ScanSpace(init, c);
      BlankHasNoLink(init);
      LinksConcat(Scan(init), [Char(c)]);
      OneChar(c);
    }
  }

  lemma OneChar(c: char)
    ensures LinksOf([Char(c)]) == []
  {
  }

  lemma {:induction false} DropBlankLinks(lines: Lines)
    ensures LinksOf(Scan(Join(DropBlank(lines)))) == LinksOf(Scan(Join(lines)))
  {
    hide Scan, LinksOf, Blank, Join;
    if lines != [] && Blank(lines[0]) {
      DropBlankLinks(lines[1..]);
      assert lines == [lines[0]] + lines[1..];
      LinksOfLines([lines[0]], lines[1..]);
      assert Join([lines[0]]) == lines[0] by { JoinOne(lines[0]); }
      BlankHasNoLink(lines[0]);
    }
  }

  /** The lines of the frontmatter after an update; none when nothing is left of it. */
  function NewFront(text: string, updates: seq<Field>): Lines {
    var fm := SpliceAll(Front(Split(text)), updates);
    if AllBlank(fm) then [] else ["---"] + fm + ["---"]
  }

  /** Setting fields keeps the links of the body. */
  lemma FieldsKeepBodyLinks(text: string, updates: seq<Field>)
    ensures LinksOf(Scan(FieldsSet(text, updates)))
      == LinksOf(Scan(Join(NewFront(text, updates)))) + LinksOf(Scan(Join(Body(Split(text)))))
  {
    hide Scan, LinksOf, Blank, Join, Split, SpliceAll, Front, Body, AllBlank;
    var body := Body(Split(text));
    LinksOfLines(NewFront(text, updates), body);
    if NewFront(text, updates) == [] {
      DropBlankLinks(body);
      assert [] + body == body;
    }
  }

  lemma AloneCons(t: Token, ts: seq<Token>)
    ensures LinksOf(Alone([t] + ts)) == (if t.Link? then LinksOf(Scan(ShowToken(t))) else []) + LinksOf(Alone(ts))
  {
    hide Scan, LinksOf, Alone;
    AloneStep(t, ts);
    LinksConcat(if t.Char? then [t] else Scan(ShowToken(t)), Alone(ts));
    if t.Char? {
      OneChar(t.c);
    }
  }

  lemma LinksCons(t: Token, ts: seq<Token>)
    ensures LinksOf([t] + ts) == if t.Link? then [t] + LinksOf(ts) else LinksOf(ts)
  {
    assert ([t] + ts)[1..] == ts;
  }

  lemma RewriteCons(t: Token, ts: seq<Token>, rewrite: string -> Option<string>)
    ensures RewriteTokens([t] + ts, rewrite) == [RewriteToken(t, rewrite)] + RewriteTokens(ts, rewrite)
  {
    hide RewriteToken;
  }

  /** Which links a rewritten text shows depends on its links alone. */
  lemma {:induction false} RewriteOfLinks(ts: seq<Token>, rewrite: string -> Option<string>)
    ensures LinksOf(Alone(RewriteTokens(ts, rewrite))) == LinksOf(Alone(RewriteTokens(LinksOf(ts), rewrite)))
  {
    hide Scan, Alone, LinksOf, RewriteTokens;
    if ts == [] {
      assert LinksOf([]) == [] by { NoLinksInNothing(); }
    } else {
      var t, rest := ts[0], ts[1..];
      assert ts == [t] + rest;
      RewriteOfLinks(rest, rewrite);
      RewriteCons(t, rest, rewrite);
      LinksCons(t, rest);
      AloneCons(RewriteToken(t, rewrite), RewriteTokens(rest, rewrite));
      if t.Link? {
        RewriteCons(t, LinksOf(rest), rewrite);
        AloneCons(RewriteToken(t, rewrite), RewriteTokens(LinksOf(rest), rewrite));
      }
    }
  }

  lemma NoLinksInNothing()
    ensures LinksOf([]) == []
  {
  }

  /** The links found in a moved issue are those of its new frontmatter and those of its old body, each rebased and read
      on its own. */
  lemma MovedIssueKeepsLinks(text: string, updates: seq<Field>, oldDir: Path, newDir: Path)
    ensures var moved := RewriteLinks(FieldsSet(text, updates), Rebase(oldDir, newDir));
      var links := LinksOf(Scan(Join(NewFront(text, updates)))) + LinksOf(Scan(Join(Body(Split(text)))));
      LinksOf(Scan(moved)) == LinksOf(Alone(RewriteTokens(links, Rebase(oldDir, newDir))))
  {
    hide Scan, LinksOf, Alone, RewriteTokens, RewriteLinks, FieldsSet, Rebase, NewFront, Body, Split, Join;
    FieldsKeepBodyLinks(text, updates);
    RewriteReadsEach(FieldsSet(text, updates), Rebase(oldDir, newDir));
    RewriteOfLinks(Scan(FieldsSet(text, updates)), Rebase(oldDir, newDir));
  }

  // --- links that do not survive ------------------------------------------------------------------

  lemma {:induction false} CommonPrefix(d: Path, p: Path, e: Path)
    requires p != [] && e != [] ==> p[0] != e[0]
    ensures Common(d + p, d + e) == |d|
    decreases |d|
  {
    if d == [] {
      assert d + p == p && d + e == e;
    } else {
      CommonPrefix(d[1..], p, e);
      assert (d + p)[1..] == d[1..] + p && (d + e)[1..] == d[1..] + e;
    }
  }

  /** A name with a colon: moved one directory up, a link to it drops the `../` that kept it from reading as a URL. */
  lemma ColonReadsAsUrl(d: Path, sub: string)
    ensures Resolve(d + [sub], "../a:b") == d + ["a:b"]
    ensures UrlLike(Resolve(d + [sub], "../a:b"), d) && Relative("../a:b")
    ensures Leads(d, RewriteToken(Link("../a:b", ""), Rebase(d + [sub], d))) == None
  {
    hide Walk, Common;
    ComponentsPrepend("..", "a:b");
    ComponentsOne("a:b");
    assert ".." + "/" + "a:b" == "../a:b";
    UpThenDown(d, sub, "a:b");
    CommonPrefix(d, ["a:b"], []);
    assert d + [] == d;
    assert "a:b"[1..] == ":b";
    assert Scheme("a:b");
    assert Ups(0) + (d + ["a:b"])[|d|..] == ["a:b"];
    assert Relpath(d + ["a:b"], d) == "a:b";
  }

  lemma UpThenDown(d: Path, sub: string, c: string)
    requires c != "" && c != "." && c != ".."
    ensures Walk(d + [sub], [".."] + [c]) == d + [c]
  {
    assert ([".."] + [c])[1..] == [c] && [c][1..] == [] && (d + [sub])[..|d|] == d;
    assert Walk(d + [c], []) == d + [c];
    assert Walk(d, [c]) == d + [c];
  }

  /** A directory with a space in its name: a link to a neighbour, which did not spell it, has to when the file leaves,
      and is not read as a link any more. */
  lemma SpaceIsNotSpelled(d: Path, dir: string)
    requires AllNamed(d) && Named(dir) && ' ' in dir && dir != "new"
    ensures Scan("](y)") == [Link("y", "")]
    ensures !ReadsTo(d + ["new"], RewriteToken(Link("y", ""), Rebase(d + [dir], d + ["new"])), Some(d + [dir, "y"]))
  {
    hide Walk, Common, RewriteLinks, RewriteTokens, Relative, Scan, AllNamed, RewriteToken, Safe;
    OneLink();
    var p := d + [dir, "y"];
    assert Resolve(d + [dir], "y") == p by {
      ComponentsOne("y");
      WalkOne(d + [dir], "y");
      assert d + [dir] + ["y"] == p;
    }
    CommonPrefix(d, [dir, "y"], ["new"]);
    NotSpelled(dir);
    assert p[|d|] == dir;
    assert !Spellable(p, d + ["new"]);
    NamedMore(d, dir);
    PlainIsRelative();
    assert Safe(Link("y", "")) by { ScanSafe("](y)"); }
    RebasedLink(Link("y", ""), d + [dir], d + ["new"]);
  }

  lemma NamedMore(d: Path, c: string)
    requires AllNamed(d) && Named(c)
    ensures AllNamed(d + [c])
  {
  }

  lemma PlainIsRelative()
    ensures Relative("y")
  {
    assert "y"[1..] == "";
  }

  lemma NotSpelled(c: string)
    requires ' ' in c
    ensures !Spelled(c)
  {
    var i :| 0 <= i < |c| && c[i] == ' ';
    assert !TargetChar(c[i]);
  }

  lemma WalkOne(d: Path, c: string)
    requires Named(c)
    ensures Walk(d, [c]) == d + [c]
  {
    assert [c][1..] == [];
  }

  lemma OneLink()
    ensures Scan("](y)") == [Link("y", "")]
  {
    hide Scan;
    assert Safe(Link("y", "")) by { assert TargetChar('y'); }
    assert ShowToken(Link("y", "")) + "" == "](y)";
    LinkScans(Link("y", ""), "");
    ScanNothing();
  }

  /** The text of another markdown file after the move. */
  function Following(text: string, p: Path, from: Path, to: Path): string {
    RewriteLinks(text, Retarget(Parent(p), from, to))
  }

  class Docs {
    var files: map<Path, string>

    /** `_move`: the file, its own links rebased, and the links of the other markdown files of the repository. */
    method Move(from: Path, to: Path, updates: seq<Field>, others: seq<Path>)
      requires from in files && from != to
      requires forall i | 0 <= i < |others| :: others[i] in files && others[i] != from && others[i] != to
      requires forall i, j | 0 <= i < j < |others| :: others[i] != others[j]
      modifies this
      ensures files.Keys == old(files).Keys - {from} + {to}
      ensures files[to] == RewriteLinks(FieldsSet(old(files)[from], updates), Rebase(Parent(from), Parent(to)))
      ensures forall p | p in old(files) && p != from && p != to ::
        files[p] == if p in others then Following(old(files)[p], p, from, to) else old(files)[p]
    {
      hide RewriteLinks, FieldsSet, Following, Rebase;
      var text := SetFields(files[from], updates);
      text := RewriteLinks(text, Rebase(Parent(from), Parent(to)));
      ghost var was := files;
      files := (files - {from})[to := text];
      for i := 0 to |others|
        invariant files.Keys == was.Keys - {from} + {to} && files[to] == text
        invariant forall p | p in was && p != from && p != to :: p in others[..i] ==> files[p] == Following(was[p], p, from, to)
        invariant forall p | p in was && p != from && p != to :: p !in others[..i] ==> files[p] == was[p]
      {
        var path := others[i];
        assert others[..i + 1] == others[..i] + [path];
        assert path !in others[..i];
        var updated := Following(files[path], path, from, to);
        if updated != files[path] {
          files := files[path := updated];
        }
      }
      assert others[..|others|] == others;
    }
  }
}
