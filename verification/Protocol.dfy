/** Any number of clients publishing to one remote branch: `_push_commit`, `_publish`, `publish_files`, `cmd_claim`
    and `cmd_release` of tools/issues/issues.py, as a state machine over fetch, build and push. */
module Protocol {
  import opened Text
  import opened Frontmatter
  import opened Check
  import opened Claims

  const PUSH_ATTEMPTS: nat := 5

  // --- commits ------------------------------------------------------------------------------------

  /** Who made a commit: a run of the tool, by client and serial number, or anything else. */
  datatype Author = Tool(client: nat, serial: nat) | Outside(serial: nat)

  datatype Commit = Commit(parents: seq<Commit>, tree: Tree, author: Author)

  /** `git merge-base --is-ancestor a c` */
  predicate Ancestor(a: Commit, c: Commit) {
    a == c || exists p <- c.parents :: Ancestor(a, p)
  }

  lemma {:induction false} AncestorTransitive(a: Commit, b: Commit, c: Commit)
    requires Ancestor(a, b) && Ancestor(b, c)
    ensures Ancestor(a, c)
    decreases c
  {
    if b != c {
      var p :| p in c.parents && Ancestor(b, p);
      AncestorTransitive(a, b, p);
    }
  }

  function MaxHeight(cs: seq<Commit>): (h: nat)
    ensures forall c <- cs :: Height(c) <= h
  {
    if cs == [] then 0
    else
      var rest := MaxHeight(cs[1..]);
      var h := Height(cs[0]);
      assert forall c <- cs :: c == cs[0] || c in cs[1..];
      if h < rest then rest else h
  }

  function Height(c: Commit): nat {
    1 + MaxHeight(c.parents)
  }

  lemma {:induction false} AncestorLower(a: Commit, c: Commit)
    requires Ancestor(a, c)
    ensures a == c || Height(a) < Height(c)
    decreases c
  {
    if a != c {
      var p :| p in c.parents && Ancestor(a, p);
      AncestorLower(a, p);
    }
  }

  lemma AncestorAntisymmetric(a: Commit, c: Commit)
    requires Ancestor(a, c) && Ancestor(c, a)
    ensures a == c
  {
    AncestorLower(a, c);
    AncestorLower(c, a);
  }

  // --- what a commit changes ----------------------------------------------------------------------

  /** {path: text, or None to delete} */
  type Changes = map<Path, Option<string>>

  function At(tree: Tree, p: Path): Option<string> {
    if p in tree then Some(tree[p]) else None
  }

  /** The index built from `base` with the changes applied. */
  function Changed(tree: Tree, changes: Changes): Tree {
    map p | p in tree.Keys + changes.Keys && (p in changes ==> changes[p].Some?)
      :: if p in changes then changes[p].value else tree[p]
  }

  lemma ChangedAt(tree: Tree, changes: Changes, p: Path)
    ensures At(Changed(tree, changes), p) == if p in changes then changes[p] else At(tree, p)
  {
  }

  // --- commands -----------------------------------------------------------------------------------

  /** The issue as the command found it in the checkout. */
  datatype Local = Local(rel: Path, text: string, untracked: bool)

  datatype Op =
    | Claim(id: string, who: string, stamp: string, force: bool, local: Local)
    | Release(id: string, who: string, force: bool, local: Local)
    | Publish(rels: set<Path>)

  datatype Built = Refused | Build(changes: Changes)

  predicate EndsWith(s: string, tail: string) {
    |tail| <= |s| && s[|s| - |tail|..] == tail
  }

  /** The issue file of `id`: its name ends in `/<id>.md` and `docs/issues/` is on its path. */
  predicate IssueFile(id: string, p: Path) {
    EndsWith(p, "/" + id + ".md") && Contains("/" + p, "docs/issues/")
  }

  predicate InClosed(p: Path) {
    Contains("/" + p, "/docs/issues/.closed/")
  }

  function Hits(tree: Tree, id: string): set<Path> {
    set p | p in tree && IssueFile(id, p)
  }

  lemma {:induction false} ContainsInside(a: string, part: string, b: string)
    ensures Contains(a + part + b, part)
    decreases |a|
  {
    if a == "" {
      assert a + part + b == part + b;
    } else {
      ContainsInside(a[1..], part, b);
      assert (a + part + b)[1..] == a[1..] + part + b;
    }
  }

  /** An issue file anywhere in the repository: below some `docs/issues/`, in any folder there, under its own name. */
  lemma FoundBelowDocs(front: string, group: string, id: string)
    requires group != "" ==> group[|group| - 1] == '/'
    ensures IssueFile(id, front + "docs/issues/" + group + id + ".md")
  {
    hide Contains;
    var p := front + "docs/issues/" + group + id + ".md";
    ContainsInside("/" + front, "docs/issues/", group + id + ".md");
    assert "/" + p == "/" + front + "docs/issues/" + (group + id + ".md");
    var dir := front + "docs/issues/" + group;
    assert dir[|dir| - 1] == '/';
    var tail := "/" + id + ".md";
    assert p == dir[..|dir| - 1] + tail;
    assert p[|p| - |tail|..] == tail;
  }

  /** A closed issue's file is below `docs/issues/.closed/`. */
  lemma ClosedBelowDocs(front: string, rest: string)
    requires front != "" ==> front[|front| - 1] == '/'
    ensures InClosed(front + "docs/issues/.closed/" + rest)
  {
    hide Contains;
    var closed := "/docs/issues/.closed/";
    var p := front + "docs/issues/.closed/" + rest;
    var init := if front == "" then "" else "/" + front[..|front| - 1];
    assert "/" + p == init + closed + rest by {
      assert closed == "/" + "docs/issues/.closed/";
      assert front != "" ==> front == front[..|front| - 1] + "/";
    }
    ContainsInside(init, closed, rest);
  }

  /** `_remote_path`: one of the hits, always the same one for the same hits. */
  ghost function RemotePath(tree: Tree, id: string): (r: Option<Path>)
    ensures r.Some? ==> r.value in Hits(tree, id)
    ensures r.None? <==> Hits(tree, id) == {}
  {
    var hits := Hits(tree, id);
    if hits == {} then None else Some(Pick(hits))
  }

  ghost function Pick(hits: set<Path>): (p: Path)
    requires hits != {}
    ensures p in hits
  {
    var p :| p in hits; p
  }

  /** `mutate` of `cmd_claim`; the gate looks names up in the commit it builds on. */
  function ClaimText(w: World, op: Op, text: string, base: Tree): Option<string>
    requires op.Claim?
  {
    if Holder(text).Some? && !op.force then None
    else
      var claimed := FieldsSet(text, ClaimFields(op.who, op.stamp));
      if Problems(w, base, op.local.rel, claimed) != {} then None else Some(claimed)
  }

  /** `mutate` of `cmd_release` */
  function ReleaseText(op: Op, text: string): Option<string>
    requires op.Release?
  {
    if Holder(text).None? || (Holder(text) != Some(op.who) && !op.force) then None
    else Some(FieldsSet(text, ReleaseFields()))
  }

  function Mutate(w: World, op: Op, text: string, base: Tree): Option<string>
    requires !op.Publish?
  {
    if op.Claim? then ClaimText(w, op, text, base) else ReleaseText(op, text)
  }

  /** `build` of `_publish` */
  ghost function BuildIssue(w: World, op: Op, base: Tree): Built
    requires !op.Publish?
  {
    match RemotePath(base, op.id)
    case None =>
      if !op.local.untracked then Refused
      else
        (match Mutate(w, op, op.local.text, base)
         case None => Refused
         case Some(text) => Build(map[op.local.rel := Some(text)]))
    case Some(path) =>
      if op.local.untracked || InClosed(path) then Refused
      else
        match Mutate(w, op, base[path], base)
        case None => Refused
        case Some(text) => Build(map[path := Some(text)])
  }

  /** `build` of `publish_files`: each path must be the same in HEAD and on the remote. */
  function BuildFiles(rels: set<Path>, base: Tree, head: Tree, work: Tree): Built {
    if exists p <- rels :: At(head, p) != At(base, p) then Refused
    else Build(map p | p in rels :: At(work, p))
  }

  ghost function BuildOp(w: World, op: Op, base: Tree, head: Tree, work: Tree): Built {
    if op.Publish? then BuildFiles(op.rels, base, head, work) else BuildIssue(w, op, base)
  }

  // --- the state machine --------------------------------------------------------------------------

  /** Where a client is in the loop of `_push_commit`; `seen` is how many pushes had landed at its fetch. */
  datatype Phase =
    | Idle
    | Ready(attempt: nat)
    | Fetched(attempt: nat, base: Commit, seen: nat)
    | Pushing(attempt: nat, base: Commit, seen: nat, commit: Commit, changes: Changes, builtOn: Checkout)
    | Pushed(commit: Commit)
    | Failed
    | GaveUp

  datatype Checkout = Checkout(head: Tree, work: Tree)

  /** `start` is how many pushes had landed when the command began. */
  datatype Client = Client(op: Op, phase: Phase, start: nat, serial: nat, checkout: Checkout)

  /** One accepted push. */
  datatype Entry =
    | Landed(client: nat, op: Op, changes: Changes, builtOn: Checkout, old_: Commit, new_: Commit)
    | Other(old_: Commit, new_: Commit)

  datatype State = State(origin: Commit, tip: Commit, log: seq<Entry>, clients: map<nat, Client>)

  datatype Step =
    | Begin(client: nat, op: Op)
    | Fetch(client: nat)
    | BuildStep(client: nat)
    | Push(client: nat)
    | PushBreaks(client: nat)
    | PushUnseen(client: nat)
    | Edit(client: nat, checkout: Checkout)
    | Elsewhere(commit: Commit)

  /** A push of someone else: no force, and no commit of a client that the client did not push itself. */
  ghost predicate OtherPush(tip: Commit, commit: Commit) {
    && Ancestor(tip, commit) && commit != tip
    && forall x :: Ancestor(x, commit) && !Ancestor(x, tip) ==> x.author.Outside?
  }

  function With(s: State, c: nat, client: Client): State {
    s.(clients := s.clients[c := client])
  }

  ghost function DoBuild(w: World, s: State, c: nat): State
    requires c in s.clients && s.clients[c].phase.Fetched?
  {
    var me := s.clients[c];
    var f := me.phase;
    match BuildOp(w, me.op, f.base.tree, me.checkout.head, me.checkout.work)
    case Refused => With(s, c, me.(phase := Failed))
    case Build(changes) =>
      var tree := Changed(f.base.tree, changes);
      if tree == f.base.tree then With(s, c, me.(phase := Failed))
      else
        var commit := Commit([f.base], tree, Tool(c, me.serial));
        With(s, c, me.(serial := me.serial + 1,
             phase := Pushing(f.attempt, f.base, f.seen, commit, changes, me.checkout)))
  }

  /** The remote takes a push whose commit descends from its tip, and rejects every other. */
  ghost function DoPush(s: State, c: nat): State
    requires c in s.clients && s.clients[c].phase.Pushing?
  {
    var me := s.clients[c];
    var f := me.phase;
    if Ancestor(s.tip, f.commit) then
      With(s, c, me.(phase := Pushed(f.commit))).(
        tip := f.commit,
        log := s.log + [Landed(c, me.op, f.changes, f.builtOn, s.tip, f.commit)])
    else
      With(s, c, me.(phase := if f.attempt + 1 == PUSH_ATTEMPTS then GaveUp else Ready(f.attempt + 1)))
  }

  /** The push reaches the remote, but the client sees an error that is no rejection, and stops. */
  ghost function DoPushUnseen(s: State, c: nat): State
    requires c in s.clients && s.clients[c].phase.Pushing?
  {
    var s' := DoPush(s, c);
    With(s', c, s'.clients[c].(phase := Failed))
  }

  predicate Resting(phase: Phase) {
    phase.Idle? || phase.Pushed? || phase.Failed? || phase.GaveUp?
  }

  /** One step; a step that is not possible changes nothing. */
  ghost function Do(w: World, s: State, step: Step): State {
    match step
    case Begin(c, op) =>
      if c in s.clients && Resting(s.clients[c].phase)
      then With(s, c, s.clients[c].(op := op, phase := Ready(0), start := |s.log|)) else s
    case Fetch(c) =>
      if c in s.clients && s.clients[c].phase.Ready?
      then With(s, c, s.clients[c].(phase := Fetched(s.clients[c].phase.attempt, s.tip, |s.log|))) else s
    case BuildStep(c) =>
      if c in s.clients && s.clients[c].phase.Fetched? then DoBuild(w, s, c) else s
    case Push(c) =>
      if c in s.clients && s.clients[c].phase.Pushing? then DoPush(s, c) else s
    case PushBreaks(c) =>
      if c in s.clients && s.clients[c].phase.Pushing? then With(s, c, s.clients[c].(phase := Failed)) else s
    case PushUnseen(c) =>
      if c in s.clients && s.clients[c].phase.Pushing? then DoPushUnseen(s, c) else s
    case Edit(c, checkout) =>
      if c in s.clients then With(s, c, s.clients[c].(checkout := checkout)) else s
    case Elsewhere(commit) =>
      if OtherPush(s.tip, commit)
      then s.(tip := commit, log := s.log + [Other(s.tip, commit)]) else s
  }

  ghost function Play(w: World, s: State, steps: seq<Step>): State
    decreases |steps|
  {
    if steps == [] then s
    else Do(w, Play(w, s, steps[..|steps| - 1]), steps[|steps| - 1])
  }

  ghost predicate Initial(s: State) {
    && s.tip == s.origin && s.log == []
    && (forall c <- s.clients :: s.clients[c].phase == Idle)
    && forall x :: Ancestor(x, s.origin) ==> x.author.Outside?
  }

  // --- what every step keeps ----------------------------------------------------------------------

  /** The tip after `k` pushes. */
  function TipAt(s: State, k: nat): Commit
    requires k <= |s.log|
  {
    if k == 0 then s.origin else s.log[k - 1].new_
  }

  /** A client's push puts exactly one commit on top of the tip it replaces, and that commit is what its command
      builds from that tip. */
  ghost predicate Clean(w: World, e: Entry) {
    match e
    case Landed(c, op, changes, co, old_, new_) =>
      && new_.parents == [old_] && new_.author.Tool? && new_.author.client == c
      && new_.tree == Changed(old_.tree, changes) && new_.tree != old_.tree
      && BuildOp(w, op, old_.tree, co.head, co.work) == Build(changes)
    case Other(old_, new_) => OtherPush(old_, new_)
  }

  ghost predicate Chained(w: World, s: State) {
    && (forall i | 0 <= i < |s.log| :: s.log[i].old_ == TipAt(s, i) && Clean(w, s.log[i]))
    && s.tip == TipAt(s, |s.log|)
  }

  predicate ByOthers(log: seq<Entry>, c: nat, from: nat) {
    forall i | from <= i < |log| :: log[i].Landed? ==> log[i].client != c
  }

  /** What a client knows: its base was the tip at its fetch, and since its command began only others pushed, at
      least one of them for each attempt it lost. */
  ghost predicate Knows(w: World, s: State, c: nat)
    requires c in s.clients
  {
    var me := s.clients[c];
    match me.phase
    case Ready(n) => n < PUSH_ATTEMPTS && me.start + n <= |s.log| && ByOthers(s.log, c, me.start)
    case Fetched(n, base, seen) =>
      && n < PUSH_ATTEMPTS && me.start + n <= seen <= |s.log| && base == TipAt(s, seen)
      && ByOthers(s.log, c, me.start)
    case Pushing(n, base, seen, commit, changes, co) =>
      && n < PUSH_ATTEMPTS && me.start + n <= seen <= |s.log| && base == TipAt(s, seen)
      && ByOthers(s.log, c, me.start)
      && 0 < me.serial && commit == Commit([base], Changed(base.tree, changes), Tool(c, me.serial - 1))
      && BuildOp(w, me.op, base.tree, co.head, co.work) == Build(changes) && commit.tree != base.tree
    case GaveUp => me.start + PUSH_ATTEMPTS <= |s.log| && ByOthers(s.log, c, me.start)
    case _ => true
  }

  /** How many commits of a client can be on the remote. */
  function Spent(me: Client): nat {
    if me.phase.Pushing? && me.serial > 0 then me.serial - 1 else me.serial
  }

  /** The remote holds only commits a client has pushed, so the one it is about to push is new there. */
  ghost predicate Fresh(s: State) {
    forall x :: Ancestor(x, s.tip) && x.author.Tool? ==>
      x.author.client in s.clients && x.author.serial < Spent(s.clients[x.author.client])
  }

  ghost predicate Inv(w: World, s: State) {
    Chained(w, s) && Fresh(s) && forall c <- s.clients :: Knows(w, s, c)
  }

  lemma CleanMoves(w: World, e: Entry)
    requires Clean(w, e)
    ensures Ancestor(e.old_, e.new_) && e.old_ != e.new_ && Height(e.old_) < Height(e.new_)
  {
    hide BuildOp, Changed;
    if e.Landed? {
      assert e.old_ in e.new_.parents;
    }
    AncestorLower(e.old_, e.new_);
  }

  lemma AncestorSelf(c: Commit)
    ensures Ancestor(c, c)
  {
  }

  lemma LastPush(w: World, s: State, j: nat)
    requires Chained(w, s) && 0 < j <= |s.log|
    ensures Ancestor(TipAt(s, j - 1), TipAt(s, j))
    ensures Height(TipAt(s, j - 1)) < Height(TipAt(s, j))
  {
    hide Clean, Height, Ancestor;
    CleanMoves(w, s.log[j - 1]);
  }

  lemma {:induction false} EarlierTip(w: World, s: State, i: nat, j: nat)
    requires Chained(w, s) && i <= j <= |s.log|
    ensures Ancestor(TipAt(s, i), TipAt(s, j))
    ensures i < j ==> Height(TipAt(s, i)) < Height(TipAt(s, j))
    decreases j
  {
    hide Chained, Height, Ancestor, TipAt;
    if i == j {
      AncestorSelf(TipAt(s, i));
    } else {
      EarlierTip(w, s, i, j - 1);
      LastPush(w, s, j);
      AncestorTransitive(TipAt(s, i), TipAt(s, j - 1), TipAt(s, j));
    }
  }

  lemma NotOnRemote(w: World, s: State, c: nat)
    requires Inv(w, s) && c in s.clients && s.clients[c].phase.Pushing?
    ensures !Ancestor(s.clients[c].phase.commit, s.tip)
  {
    hide Chained, BuildOp, Changed, Ancestor;
    assert Knows(w, s, c);
  }

  /** A push is a compare-and-swap: it is accepted exactly when nobody pushed since the fetch. */
  lemma PushIsCompareAndSwap(w: World, s: State, c: nat)
    requires Inv(w, s) && c in s.clients && s.clients[c].phase.Pushing?
    ensures Ancestor(s.tip, s.clients[c].phase.commit) <==> s.tip == s.clients[c].phase.base
    ensures s.tip == s.clients[c].phase.base <==> s.clients[c].phase.seen == |s.log|
  {
    hide BuildOp, Changed, Clean, Height;
    var f := s.clients[c].phase;
    assert Knows(w, s, c);
    EarlierTip(w, s, f.seen, |s.log|);
    NotOnRemote(w, s, c);
    ChildOf(f.commit, f.base, s.tip);
    if Ancestor(s.tip, f.base) {
      AncestorAntisymmetric(f.base, s.tip);
    }
  }

  lemma ChildOf(child: Commit, parent: Commit, x: Commit)
    requires child.parents == [parent]
    ensures Ancestor(x, child) <==> x == child || Ancestor(x, parent)
    ensures Ancestor(child, child) && Ancestor(parent, parent)
  {
    assert forall p :: p in child.parents <==> p == parent;
  }
}
