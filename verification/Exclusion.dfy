/** Claims exclude each other, in every run. */
module Exclusion {
  import opened Text
  import opened Frontmatter
  import opened Check
  import opened Claims
  import opened Protocol
  import opened ProtocolRuns

  // --- the claim on the remote --------------------------------------------------------------------

  ghost function HolderOn(tree: Tree, id: string): Option<string> {
    match RemotePath(tree, id)
    case None => None
    case Some(p) => Holder(tree[p])
  }

  ghost predicate RegularOn(tree: Tree, id: string) {
    match RemotePath(tree, id)
    case None => true
    case Some(p) => Regular(tree[p])
  }

  predicate OneName(id: string) {
    '/' !in id
  }

  /** A path names one issue. */
  lemma OneIssue(p: Path, a: string, b: string)
    requires OneName(a) && OneName(b) && IssueFile(a, p) && IssueFile(b, p)
    ensures a == b
  {
    hide Contains;
    SameTail(p, a, b);
    SameTail(p, b, a);
    var n := |p| - |a| - 3;
    assert a == p[n..n + |a|] by { NameAt(p, a); }
    assert b == p[n..n + |b|] by { NameAt(p, b); }
  }

  lemma NameAt(p: Path, id: string)
    requires EndsWith(p, "/" + id + ".md")
    ensures |id| + 4 <= |p| && p[|p| - |id| - 4] == '/' && p[|p| - |id| - 3..|p| - 3] == id
  {
    var tail := "/" + id + ".md";
    var at := |p| - |tail|;
    assert p[at..] == tail;
    assert p[at] == tail[0];
    assert tail[1..|id| + 1] == id;
    assert p[at + 1..|p| - 3] == p[at..][1..|id| + 1];
  }

  lemma SameTail(p: Path, a: string, b: string)
    requires OneName(b) && EndsWith(p, "/" + a + ".md") && EndsWith(p, "/" + b + ".md")
    ensures |a| >= |b|
  {
    NameAt(p, a);
    NameAt(p, b);
    var from := |p| - |b| - 3;
    forall j | from <= j < |p| - 3 ensures p[j] != '/' {
      assert p[from..|p| - 3][j - from] == p[j];
    }
  }

  lemma OneChange(tree: Tree, p: Path, text: string)
    ensures Changed(tree, map[p := Some(text)]) == tree[p := text]
  {
  }

  /** Writing the issue's file, or adding it where there was none, makes it the one that is found. */
  lemma Rewritten(tree: Tree, id: string, p: Path, text: string)
    requires IssueFile(id, p)
    requires RemotePath(tree, id) == None || RemotePath(tree, id) == Some(p)
    ensures RemotePath(tree[p := text], id) == Some(p)
  {
    hide IssueFile;
    if RemotePath(tree, id) == None {
      assert Hits(tree[p := text], id) == {p};
    } else {
      assert Hits(tree[p := text], id) == Hits(tree, id);
    }
  }

  /** Writing another issue's file leaves this one as it is. */
  lemma OtherRewritten(tree: Tree, id: string, p: Path, text: string)
    requires !IssueFile(id, p)
    ensures HolderOn(tree[p := text], id) == HolderOn(tree, id)
    ensures RegularOn(tree[p := text], id) == RegularOn(tree, id)
  {
    hide IssueFile, Holder, Regular;
    assert Hits(tree[p := text], id) == Hits(tree, id);
  }

  // --- the claims and releases of a run -----------------------------------------------------------

  predicate About(e: Entry, id: string) {
    e.Landed? && !e.op.Publish? && e.op.id == id
  }

  /** Who holds the claim by the claims and releases that landed. */
  function Owner(log: seq<Entry>, id: string): Option<string> {
    if log == [] then None
    else
      var e := log[|log| - 1];
      if About(e, id) then if e.op.Claim? then Some(e.op.who) else None
      else Owner(log[..|log| - 1], id)
  }

  /** A claim lands only on an issue nobody holds, and a release only from its holder. */
  predicate Alternating(log: seq<Entry>, id: string) {
    forall i | 0 <= i < |log| && About(log[i], id) ::
      Owner(log[..i], id) == if log[i].op.Claim? then None else Some(log[i].op.who)
  }

  /** The issue a command is about, and the names it writes. */
  predicate WellFormed(op: Op) {
    && !op.Publish? && OneName(op.id) && IssueFile(op.id, op.local.rel)
    && (op.Claim? ==> Rendered(op.who) && OneLine(op.stamp))
    && (op.local.untracked ==> OneClaim(op.local.text))
  }

  /** Pushes without `--force`; every other push leaves the claim alone. */
  ghost predicate Orderly(e: Entry, id: string) {
    if e.Landed? && !e.op.Publish? then
      WellFormed(e.op) && (e.op.id == id ==> !e.op.force)
    else
      && HolderOn(e.new_.tree, id) == HolderOn(e.old_.tree, id)
      && (RegularOn(e.old_.tree, id) ==> RegularOn(e.new_.tree, id))
  }

  /** A release of the issue is of a file that git tracks where it is released. */
  predicate Tracked(e: Entry, id: string) {
    About(e, id) && e.op.Release? ==> !e.op.local.untracked
  }

  predicate AllTracked(log: seq<Entry>, id: string) {
    forall i | 0 <= i < |log| :: Tracked(log[i], id)
  }

  lemma NoProblemsTitled(w: World, tree: Tree, path: Path, text: string)
    requires Problems(w, tree, path, text) == {}
    ensures Titled(Body(Split(text)))
  {
    hide FieldProblems, StatusProblems, LinkProblems, RefsProblems, Read, Titled;
    assert LoadErrors(w, path, text) <= Problems(w, tree, path, text);
    assert NoTitle !in LoadErrors(w, path, text);
  }

  /** The text a claim or release starts from: the remote's, or the local one of an issue the remote does not have. */
  ghost function Base(op: Op, tree: Tree): string
    requires !op.Publish?
  {
    match RemotePath(tree, op.id)
    case None => op.local.text
    case Some(p) => tree[p]
  }

  /** The file that a claim or release writes. */
  ghost function Target(op: Op, tree: Tree): Path
    requires !op.Publish?
  {
    match RemotePath(tree, op.id)
    case None => op.local.rel
    case Some(p) => p
  }

  /** Exactly when a claim or release builds, and what: the issue is open on the remote, or on neither side tracked; a
      claim needs the issue unheld and the claimed text free of problems, a release needs the releaser to hold it; and
      `--force` waives the holder, not the gate, and not that there must be a claim to release. */
  lemma IssueBuilds(w: World, op: Op, base: Tree)
    requires !op.Publish?
    ensures var text := Base(op, base);
      var written := FieldsSet(text, if op.Claim? then ClaimFields(op.who, op.stamp) else ReleaseFields());
      var known := RemotePath(base, op.id).Some?;
      BuildIssue(w, op, base) ==
        if && known != op.local.untracked
           && (known ==> !Contains("/" + Target(op, base), "/docs/issues/.closed/"))
           && (if op.Claim? then (op.force || Holder(text) == None) && Problems(w, base, op.local.rel, written) == {}
               else Holder(text) != None && (op.force || Holder(text) == Some(op.who)))
        then Build(map[Target(op, base) := Some(written)])
        else Refused
  {
    hide FieldsSet, Holder, Problems, Contains;
  }

  /** A forced claim takes a held issue over, when the gate lets it. */
  lemma ForcedClaimTakesOver(w: World, op: Op, base: Tree)
    requires op.Claim? && op.force && WellFormed(op) && RemotePath(base, op.id).Some? && !op.local.untracked
    requires OneClaim(Base(op, base)) && !InClosed(Target(op, base))
    requires Problems(w, base, op.local.rel, FieldsSet(Base(op, base), ClaimFields(op.who, op.stamp))) == {}
    ensures BuildIssue(w, op, base).Build?
    ensures HolderOn(Changed(base, BuildIssue(w, op, base).changes), op.id) == Some(op.who)
  {
    hide FieldsSet, Holder, Problems, Contains, IssueFile, Changed, OneClaim;
    IssueBuilds(w, op, base);
    var p, written := Target(op, base), FieldsSet(Base(op, base), ClaimFields(op.who, op.stamp));
    OneChange(base, p, written);
    Rewritten(base, op.id, p, written);
    ClaimHolds(Base(op, base), op.who, op.stamp);
  }

  /** The fields of a claimed issue. */
  function Claimed(fields: map<string, Lines>, who: string, stamp: string): map<string, Lines> {
    fields["claimed-by" := ["claimed-by: " + who]]["claimed-at" := ["claimed-at: " + stamp]]
  }

  lemma ClaimLands(w: World, e: Entry)
    requires Clean(w, e) && e.Landed? && e.op.Claim? && !e.op.force && WellFormed(e.op)
    ensures HolderOn(e.old_.tree, e.op.id) == None
    ensures RegularOn(e.old_.tree, e.op.id) ==>
      HolderOn(e.new_.tree, e.op.id) == Some(e.op.who) && RegularOn(e.new_.tree, e.op.id)
    ensures var p := RemotePath(e.new_.tree, e.op.id);
      p.Some? && Problems(w, e.old_.tree, e.op.local.rel, e.new_.tree[p.value]) == {}
    ensures var before, after := Base(e.op, e.old_.tree), e.new_.tree[RemotePath(e.new_.tree, e.op.id).value];
      OnceEach(before) ==> FieldMap(after) == Claimed(FieldMap(before), e.op.who, e.op.stamp)
  {
    hide Holder, FieldsSet, Problems, IssueFile, Changed, OneClaim, Titled, OnceEach, FieldMap;
    var op, tree := e.op, e.old_.tree;
    var path := RemotePath(tree, op.id);
    var p := if path.Some? then path.value else op.local.rel;
    var text := if path.Some? then tree[p] else op.local.text;
    var claimed := FieldsSet(text, ClaimFields(op.who, op.stamp));
    assert e.changes == map[p := Some(claimed)];
    OneChange(tree, p, claimed);
    Rewritten(tree, op.id, p, claimed);
    if OneClaim(text) {
      ClaimHolds(text, op.who, op.stamp);
    }
    if OnceEach(text) {
      ClaimWrites(text, op.who, op.stamp);
    }
    NoProblemsTitled(w, tree, op.local.rel, claimed);
  }

  lemma ReleaseLands(w: World, e: Entry)
    requires Clean(w, e) && e.Landed? && e.op.Release? && !e.op.force && !e.op.local.untracked && WellFormed(e.op)
    requires RegularOn(e.old_.tree, e.op.id)
    ensures HolderOn(e.old_.tree, e.op.id) == Some(e.op.who)
    ensures HolderOn(e.new_.tree, e.op.id) == None && RegularOn(e.new_.tree, e.op.id)
    ensures var before, after := Base(e.op, e.old_.tree), RemotePath(e.new_.tree, e.op.id);
      after.Some? && (OnceEach(before) ==>
        FieldMap(e.new_.tree[after.value]) == FieldMap(before) - {"claimed-by", "claimed-at"})
  {
    hide Holder, FieldsSet, IssueFile, Changed, Titled, OneClaim, OnceEach, FieldMap;
    var op, tree := e.op, e.old_.tree;
    var p := RemotePath(tree, op.id).value;
    var released := FieldsSet(tree[p], ReleaseFields());
    assert e.changes == map[p := Some(released)];
    OneChange(tree, p, released);
    Rewritten(tree, op.id, p, released);
    ReleaseFrees(tree[p]);
    if OnceEach(tree[p]) {
      ReleaseWrites(tree[p]);
    }
  }

  lemma OtherIssueLands(w: World, e: Entry, id: string)
    requires Clean(w, e) && e.Landed? && WellFormed(e.op) && e.op.id != id && OneName(id)
    ensures HolderOn(e.new_.tree, id) == HolderOn(e.old_.tree, id)
    ensures RegularOn(e.new_.tree, id) == RegularOn(e.old_.tree, id)
  {
    hide Holder, IssueFile, Changed, Regular, Mutate, HolderOn, RegularOn;
    var op, tree := e.op, e.old_.tree;
    var path := RemotePath(tree, op.id);
    var p := if path.Some? then path.value else op.local.rel;
    assert IssueFile(op.id, p);
    if IssueFile(id, p) {
      OneIssue(p, id, op.id);
    }
    var text :| e.changes == map[p := Some(text)];
    OneChange(tree, p, text);
    OtherRewritten(tree, id, p, text);
  }

  /** One push: who holds the claim before and after it. */
  lemma Lands(w: World, e: Entry, id: string)
    requires Clean(w, e) && Orderly(e, id) && Tracked(e, id) && OneName(id) && RegularOn(e.old_.tree, id)
    ensures RegularOn(e.new_.tree, id)
    ensures About(e, id) ==>
      && HolderOn(e.old_.tree, id) == (if e.op.Claim? then None else Some(e.op.who))
      && HolderOn(e.new_.tree, id) == (if e.op.Claim? then Some(e.op.who) else None)
    ensures !About(e, id) ==> HolderOn(e.new_.tree, id) == HolderOn(e.old_.tree, id)
  {
    hide HolderOn, RegularOn, Clean, WellFormed;
    if About(e, id) {
      if e.op.Claim? {
        ClaimLands(w, e);
      } else {
        ReleaseLands(w, e);
      }
    } else if e.Landed? && !e.op.Publish? {
      OtherIssueLands(w, e, id);
    }
  }

  /** The claim on the remote is the one the landed claims and releases leave, push by push. */
  lemma {:induction false} HeldAsLogged(w: World, s: State, id: string, k: nat)
    requires Chained(w, s) && k <= |s.log| && OneName(id) && (forall e <- s.log :: Orderly(e, id))
    requires AllTracked(s.log[..k], id)
    requires HolderOn(s.origin.tree, id) == None && RegularOn(s.origin.tree, id)
    ensures HolderOn(TipAt(s, k).tree, id) == Owner(s.log[..k], id) && RegularOn(TipAt(s, k).tree, id)
    ensures Alternating(s.log[..k], id)
  {
    hide HolderOn, RegularOn, Clean, Orderly, Alternating, Owner, About, Chained, Tracked;
    if k == 0 {
      AlternatingNone(s.log[..0], id);
    } else {
      var e := s.log[k - 1];
      assert s.log[..k][k - 1] == e;
      assert forall i | 0 <= i < k - 1 :: s.log[..k - 1][i] == s.log[..k][i];
      HeldAsLogged(w, s, id, k - 1);
      LoggedAt(w, s, k - 1);
      assert e in s.log;
      Lands(w, e, id);
      var log := s.log[..k - 1];
      AlternatingMore(log, e, id);
      assert s.log[..k] == log + [e];
    }
  }

  lemma LoggedAt(w: World, s: State, i: nat)
    requires Chained(w, s) && i < |s.log|
    ensures Clean(w, s.log[i]) && s.log[i].old_ == TipAt(s, i) && s.log[i].new_ == TipAt(s, i + 1)
  {
    hide Clean;
  }

  lemma AlternatingNone(log: seq<Entry>, id: string)
    requires log == []
    ensures Alternating(log, id) && Owner(log, id) == None
  {
  }

  lemma OwnerMore(log: seq<Entry>, e: Entry, id: string)
    ensures Owner(log + [e], id) ==
      if About(e, id) then if e.op.Claim? then Some(e.op.who) else None else Owner(log, id)
  {
    assert (log + [e])[..|log|] == log;
  }

  lemma AlternatingMore(log: seq<Entry>, e: Entry, id: string)
    requires Alternating(log, id)
    requires About(e, id) ==> Owner(log, id) == if e.op.Claim? then None else Some(e.op.who)
    ensures Alternating(log + [e], id)
    ensures !About(e, id) ==> Owner(log + [e], id) == Owner(log, id)
    ensures About(e, id) ==> Owner(log + [e], id) == if e.op.Claim? then Some(e.op.who) else None
  {
    OwnerMore(log, e, id);
    hide Owner;
    forall i | 0 <= i < |log + [e]| && About((log + [e])[i], id)
      ensures Owner((log + [e])[..i], id) ==
        if (log + [e])[i].op.Claim? then None else Some((log + [e])[i].op.who)
    {
      assert (log + [e])[..i] == log[..i];
      assert i == |log| ==> log[..i] == log;
    }
  }

  lemma UntrackedFindsNone(w: World, e: Entry, id: string)
    requires Clean(w, e) && About(e, id) && e.op.Release? && e.op.local.untracked
    ensures HolderOn(e.old_.tree, id) == None
  {
    hide Holder, Mutate, Changed, Hits;
  }

  /** The first release of an untracked file ends the alternation: nobody holds the issue it releases. */
  lemma FirstUntracked(w: World, s: State, id: string, i: nat)
    requires Chained(w, s) && i < |s.log| && OneName(id) && (forall e <- s.log :: Orderly(e, id))
    requires AllTracked(s.log[..i], id) && !Tracked(s.log[i], id)
    requires HolderOn(s.origin.tree, id) == None && RegularOn(s.origin.tree, id)
    ensures Owner(s.log[..i], id) == None && !Alternating(s.log, id)
  {
    hide HolderOn, RegularOn, Clean, Orderly, Owner, Chained, AllTracked;
    HeldAsLogged(w, s, id, i);
    LoggedAt(w, s, i);
    UntrackedFindsNone(w, s.log[i], id);
  }

  lemma {:induction false} LeastUntracked(log: seq<Entry>, id: string) returns (i: nat)
    requires !AllTracked(log, id)
    ensures i < |log| && AllTracked(log[..i], id) && !Tracked(log[i], id)
  {
    hide Tracked;
    var n := |log| - 1;
    if AllTracked(log[..n], id) {
      i := n;
      assert forall k | 0 <= k < n :: log[..n][k] == log[k];
    } else {
      i := LeastUntracked(log[..n], id);
      assert log[..n][..i] == log[..i];
    }
  }

  /** In every interleaving of any number of clients, starting unclaimed: the accepted claims and releases of an issue
      alternate and each release carries the name of the claim it ends, if and only if no release that landed was of an
      untracked file. Then the remote always shows the holder. In either case every claim passed the gate against the
      commit it was pushed onto. */
  lemma MutualExclusion(w: World, init: State, steps: seq<Step>, id: string)
    requires Initial(init) && OneName(id)
    requires HolderOn(init.origin.tree, id) == None && RegularOn(init.origin.tree, id)
    requires forall e <- Play(w, init, steps).log :: Orderly(e, id)
    ensures var s := Play(w, init, steps);
      && (Alternating(s.log, id) <==> AllTracked(s.log, id))
      && (AllTracked(s.log, id) ==> HolderOn(s.tip.tree, id) == Owner(s.log, id))
      && (forall e <- s.log | About(e, id) && e.op.Claim? ::
            var p := RemotePath(e.new_.tree, id);
            p.Some? && Problems(w, e.old_.tree, e.op.local.rel, e.new_.tree[p.value]) == {})
  {
    hide HolderOn, RegularOn, Clean, WellFormed, Play, Knows, Fresh, Problems, Alternating, Tracked, Owner;
    Reachable(w, init, steps);
    var s := Play(w, init, steps);
    assert s.log[..|s.log|] == s.log;
    if AllTracked(s.log, id) {
      HeldAsLogged(w, s, id, |s.log|);
    } else {
      var i := LeastUntracked(s.log, id);
      FirstUntracked(w, s, id, i);
    }
    forall i | 0 <= i < |s.log| && About(s.log[i], id) && s.log[i].op.Claim?
      ensures var e := s.log[i];
        var p := RemotePath(e.new_.tree, id);
        p.Some? && Problems(w, e.old_.tree, e.op.local.rel, e.new_.tree[p.value]) == {}
    {
      assert Orderly(s.log[i], id) && Clean(w, s.log[i]);
      ClaimLands(w, s.log[i]);
    }
  }

  // --- a run that does not alternate --------------------------------------------------------------

  /** An unclaimed, empty remote and one client. */
  function Lone(): State {
    var origin := Commit([], map[], Outside(0));
    State(origin, origin, [], map[0 := Client(Publish({}), Idle, 0, 0, Checkout(map[], map[]))])
  }

  /** Releasing an issue file that was never added, and that carries a claim of its own. */
  function LoneRelease(who: string, stamp: string): Op {
    Release("bug-x", who, false, Local("docs/issues/bug-x.md", FieldsSet("", ClaimFields(who, stamp)), true))
  }

  /** One client, four steps: a release lands on a remote that never saw a claim. */
  lemma UntrackedRelease(w: World, who: string, stamp: string)
    requires Rendered(who) && OneLine(stamp)
    ensures var op := LoneRelease(who, stamp);
      var s := Play(w, Lone(), [Begin(0, op), Fetch(0), BuildStep(0), Push(0)]);
      && Initial(Lone()) && HolderOn(Lone().origin.tree, op.id) == None && RegularOn(Lone().origin.tree, op.id)
      && |s.log| == 1 && Orderly(s.log[0], op.id) && About(s.log[0], op.id) && s.log[0].op == op
      && !Alternating(s.log, op.id)
  {
    hide FieldsSet, Holder, OneClaim, Rendered, Ancestor, Do, Play, Alternating, HolderOn, RegularOn, ClaimFields;
    var init, op := Lone(), LoneRelease(who, stamp);
    LoneIsInitial();
    LoneFile();
    assert OneClaim("") by { NothingClaimed(); }
    ClaimHolds("", who, stamp);
    assert Hits(map[], op.id) == {};
    var begun := With(init, 0, init.clients[0].(op := op, phase := Ready(0), start := 0));
    assert Do(w, init, Begin(0, op)) == begun by { BeginDone(w, init, 0, op); }
    LoneBuilds(w, op);
    AloneItLands(w, begun, 0);
    PlayFour(w, init, Begin(0, op), Fetch(0), BuildStep(0), Push(0));
    var s := Play(w, init, [Begin(0, op), Fetch(0), BuildStep(0), Push(0)]);
    LoneNotAlternating(s.log, op.id);
    assert HolderOn(init.origin.tree, op.id) == None && RegularOn(init.origin.tree, op.id) by { LoneUnclaimed(op.id); }
  }

  lemma LoneUnclaimed(id: string)
    ensures HolderOn(map[], id) == None && RegularOn(map[], id)
  {
    assert Hits(map[], id) == {};
  }

  lemma LoneNotAlternating(log: seq<Entry>, id: string)
    requires |log| == 1 && About(log[0], id) && log[0].op.Release?
    ensures !Alternating(log, id)
  {
    assert log[..0] == [];
    assert Owner(log[..0], id) == None;
  }

  lemma LoneIsInitial()
    ensures Initial(Lone())
  {
  }

  lemma NothingClaimed()
    ensures OneClaim("")
  {
    hide Delimiter;
    SplitOneLine("");
    EmptyIsNoDelimiter();
    NoFields(Front(Split("")));
  }

  /** The name of the file is that of the issue. */
  lemma LoneFile()
    ensures IssueFile("bug-x", "docs/issues/bug-x.md") && OneName("bug-x")
  {
    hide EndsWith;
    assert "/docs/issues/bug-x.md"[1..] == "docs/issues/bug-x.md";
    assert "docs/issues/" <= "docs/issues/bug-x.md";
    TailOf("docs/issues", "/bug-x.md");
    assert "docs/issues" + "/bug-x.md" == "docs/issues/bug-x.md";
    assert "/" + "bug-x" + ".md" == "/bug-x.md";
    assert "/" + "docs/issues/bug-x.md" == "/docs/issues/bug-x.md";
  }

  lemma TailOf(front: string, tail: string)
    ensures EndsWith(front + tail, tail)
  {
  }

  lemma BeginDone(w: World, s: State, c: nat, op: Op)
    requires c in s.clients && Resting(s.clients[c].phase)
    ensures Do(w, s, Begin(c, op)) == With(s, c, s.clients[c].(op := op, phase := Ready(0), start := |s.log|))
  {
  }

  lemma LoneBuilds(w: World, op: Op)
    requires op.Release? && op.local.untracked && Holder(op.local.text) == Some(op.who)
    ensures var built := BuildOp(w, op, map[], map[], map[]);
      built.Build? && Changed(map[], built.changes) != map[]
  {
    hide Holder, FieldsSet, IssueFile;
    assert Hits(map[], op.id) == {};
    var text := FieldsSet(op.local.text, ReleaseFields());
    OneChange(map[], op.local.rel, text);
    assert op.local.rel in Changed(map[], map[op.local.rel := Some(text)]);
  }

  lemma PlayFour(w: World, s: State, a: Step, b: Step, c: Step, d: Step)
    ensures Play(w, s, [a, b, c, d]) == Play(w, Do(w, s, a), [b, c, d])
  {
    hide Do;
    PlayThree(w, s, a, b, c);
    PlayThree(w, Do(w, s, a), b, c, d);
    assert [a, b, c, d][..3] == [a, b, c];
  }
}
