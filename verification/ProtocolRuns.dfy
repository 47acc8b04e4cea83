/** Safety of the publishing protocol over every run: every interleaving of any number of clients. */
module ProtocolRuns {
  import opened Text
  import opened Check
  import opened Protocol

  // --- every step keeps the invariant -------------------------------------------------------------

  /** A step that moves one client and not the remote. */
  lemma LocalStep(w: World, s: State, c: nat, me: Client)
    requires Inv(w, s) && c in s.clients && Spent(me) >= Spent(s.clients[c])
    requires Knows(w, With(s, c, me), c)
    ensures Inv(w, With(s, c, me))
  {
    hide BuildOp, Changed, Clean, Ancestor, Spent;
    var s' := With(s, c, me);
    assert forall k: nat | k <= |s.log| :: TipAt(s', k) == TipAt(s, k);
    forall d <- s'.clients ensures Knows(w, s', d) {
      if d != c {
        assert Knows(w, s, d);
      }
    }
  }

  lemma BeginKeeps(w: World, s: State, c: nat, op: Op)
    requires Inv(w, s)
    ensures Inv(w, Do(w, s, Begin(c, op)))
  {
    hide Chained, Fresh, BuildOp, Changed;
    if c in s.clients && Resting(s.clients[c].phase) {
      LocalStep(w, s, c, s.clients[c].(op := op, phase := Ready(0), start := |s.log|));
    }
  }

  lemma FetchKeeps(w: World, s: State, c: nat)
    requires Inv(w, s)
    ensures Inv(w, Do(w, s, Fetch(c)))
  {
    hide Fresh, BuildOp, Changed, Clean;
    if c in s.clients && s.clients[c].phase.Ready? {
      assert Knows(w, s, c);
      LocalStep(w, s, c, s.clients[c].(phase := Fetched(s.clients[c].phase.attempt, s.tip, |s.log|)));
    }
  }

  lemma BuildKeeps(w: World, s: State, c: nat)
    requires Inv(w, s)
    ensures Inv(w, Do(w, s, BuildStep(c)))
  {
    hide Chained, Fresh, BuildOp, Changed;
    if c in s.clients && s.clients[c].phase.Fetched? {
      assert Knows(w, s, c);
      var s' := DoBuild(w, s, c);
      assert s' == With(s, c, s'.clients[c]);
      assert forall k: nat | k <= |s.log| :: TipAt(s', k) == TipAt(s, k);
      LocalStep(w, s, c, s'.clients[c]);
    }
  }

  lemma BreakKeeps(w: World, s: State, c: nat)
    requires Inv(w, s)
    ensures Inv(w, Do(w, s, PushBreaks(c)))
  {
    hide Chained, Fresh, BuildOp, Changed;
    if c in s.clients && s.clients[c].phase.Pushing? {
      LocalStep(w, s, c, s.clients[c].(phase := Failed));
    }
  }

  lemma EditKeeps(w: World, s: State, c: nat, checkout: Checkout)
    requires Inv(w, s)
    ensures Inv(w, Do(w, s, Edit(c, checkout)))
  {
    hide Chained, Fresh, BuildOp, Changed;
    if c in s.clients {
      assert Knows(w, s, c);
      var s' := With(s, c, s.clients[c].(checkout := checkout));
      assert forall k: nat | k <= |s.log| :: TipAt(s', k) == TipAt(s, k);
      LocalStep(w, s, c, s.clients[c].(checkout := checkout));
    }
  }

  predicate Extends(s: State, s': State, e: Entry) {
    e.old_ == s.tip && s'.origin == s.origin && s'.log == s.log + [e] && s'.tip == e.new_
  }

  lemma SameTips(s: State, s': State, e: Entry, k: nat)
    requires Extends(s, s', e) && k <= |s.log|
    ensures TipAt(s', k) == TipAt(s, k)
  {
  }

  lemma Logged(w: World, s: State, s': State, e: Entry, i: nat)
    requires Chained(w, s) && Clean(w, e) && Extends(s, s', e) && i < |s'.log|
    ensures s'.log[i].old_ == TipAt(s', i) && Clean(w, s'.log[i])
  {
    hide Clean, TipAt;
    SameTips(s, s', e, i);
    if i < |s.log| {
      assert s'.log[i] == s.log[i];
    }
  }

  /** A push that lands extends the log. */
  lemma Grown(w: World, s: State, s': State, e: Entry)
    requires Chained(w, s) && Clean(w, e) && Extends(s, s', e)
    ensures Chained(w, s')
  {
    forall i: nat | i < |s'.log| ensures s'.log[i].old_ == TipAt(s', i) && Clean(w, s'.log[i]) {
      Logged(w, s, s', e, i);
    }
    hide Clean;
    assert s'.tip == TipAt(s', |s'.log|);
  }

  /** What the other clients know stays true. */
  lemma StillKnows(w: World, s: State, s': State, e: Entry, d: nat)
    requires Extends(s, s', e) && d in s.clients && d in s'.clients && s'.clients[d] == s.clients[d]
    requires Knows(w, s, d) && (e.Landed? ==> e.client != d)
    ensures Knows(w, s', d)
  {
    hide BuildOp, Changed, TipAt;
    var phase := s.clients[d].phase;
    if phase.Fetched? || phase.Pushing? {
      SameTips(s, s', e, phase.seen);
    }
  }

  lemma ElsewhereKeeps(w: World, s: State, commit: Commit)
    requires Inv(w, s)
    ensures Inv(w, Do(w, s, Elsewhere(commit)))
  {
    hide BuildOp, Changed, Chained, Knows, Ancestor;
    if OtherPush(s.tip, commit) {
      var s' := Do(w, s, Elsewhere(commit));
      Grown(w, s, s', Other(s.tip, commit));
      forall d <- s'.clients ensures Knows(w, s', d) {
        StillKnows(w, s, s', Other(s.tip, commit), d);
      }
    }
  }

  lemma FreshAfterPush(w: World, s: State, c: nat)
    requires Inv(w, s) && c in s.clients && s.clients[c].phase.Pushing? && s.tip == s.clients[c].phase.base
    requires Ancestor(s.tip, s.clients[c].phase.commit)
    ensures Fresh(DoPush(s, c))
  {
    hide BuildOp, Changed, Chained, Ancestor, TipAt;
    var f := s.clients[c].phase;
    assert Knows(w, s, c);
    var s' := DoPush(s, c);
    forall x | Ancestor(x, s'.tip) && x.author.Tool?
      ensures x.author.client in s'.clients && x.author.serial < Spent(s'.clients[x.author.client])
    {
      ChildOf(f.commit, f.base, x);
    }
  }

  lemma AcceptedKeeps(w: World, s: State, c: nat)
    requires Inv(w, s) && c in s.clients && s.clients[c].phase.Pushing?
    requires Ancestor(s.tip, s.clients[c].phase.commit)
    ensures Inv(w, DoPush(s, c))
  {
    hide BuildOp, Changed, Chained, Ancestor, Fresh, TipAt;
    var f := s.clients[c].phase;
    PushIsCompareAndSwap(w, s, c);
    FreshAfterPush(w, s, c);
    var s' := DoPush(s, c);
    assert Knows(w, s, c);
    var e := Landed(c, s.clients[c].op, f.changes, f.builtOn, s.tip, f.commit);
    Grown(w, s, s', e);
    forall d <- s'.clients ensures Knows(w, s', d) {
      if d != c {
        StillKnows(w, s, s', e, d);
      }
    }
  }

  lemma RejectedKeeps(w: World, s: State, c: nat)
    requires Inv(w, s) && c in s.clients && s.clients[c].phase.Pushing?
    requires !Ancestor(s.tip, s.clients[c].phase.commit)
    ensures Inv(w, DoPush(s, c))
  {
    hide BuildOp, Changed, Chained, Ancestor, Fresh, TipAt;
    PushIsCompareAndSwap(w, s, c);
    assert Knows(w, s, c);
    LocalStep(w, s, c, DoPush(s, c).clients[c]);
  }

  lemma PushKeeps(w: World, s: State, c: nat)
    requires Inv(w, s)
    ensures Inv(w, Do(w, s, Push(c))) && Do(w, s, Push(c)).origin == s.origin
  {
    hide Chained, Fresh, Knows, BuildOp, Changed, Ancestor;
    if c in s.clients && s.clients[c].phase.Pushing? {
      if Ancestor(s.tip, s.clients[c].phase.commit) {
        AcceptedKeeps(w, s, c);
      } else {
        RejectedKeeps(w, s, c);
      }
    }
  }

  lemma UnseenKeeps(w: World, s: State, c: nat)
    requires Inv(w, s)
    ensures Inv(w, Do(w, s, PushUnseen(c))) && Do(w, s, PushUnseen(c)).origin == s.origin
  {
    hide Chained, Fresh, BuildOp, Changed, Ancestor;
    if c in s.clients && s.clients[c].phase.Pushing? {
      PushKeeps(w, s, c);
      var s' := DoPush(s, c);
      LocalStep(w, s', c, s'.clients[c].(phase := Failed));
    }
  }

  /** The invariant holds in every reachable state. */
  lemma {:induction false} Reachable(w: World, s: State, steps: seq<Step>)
    requires Initial(s)
    ensures Inv(w, Play(w, s, steps)) && Play(w, s, steps).origin == s.origin
    decreases |steps|
  {
    hide Chained, Fresh, Knows, Do;
    if steps == [] {
      InitialInv(w, s);
    } else {
      Reachable(w, s, steps[..|steps| - 1]);
      StepKeeps(w, Play(w, s, steps[..|steps| - 1]), steps[|steps| - 1]);
    }
  }

  lemma InitialInv(w: World, s: State)
    requires Initial(s)
    ensures Inv(w, s)
  {
  }

  lemma StepKeeps(w: World, s: State, step: Step)
    requires Inv(w, s)
    ensures Inv(w, Do(w, s, step)) && Do(w, s, step).origin == s.origin
  {
    hide Chained, Fresh, Knows, BuildOp, Changed;
    match step
    case Begin(c, op) => BeginKeeps(w, s, c, op);
    case Fetch(c) => FetchKeeps(w, s, c);
    case BuildStep(c) => BuildKeeps(w, s, c);
    case Push(c) => PushKeeps(w, s, c);
    case PushBreaks(c) => BreakKeeps(w, s, c);
    case PushUnseen(c) => UnseenKeeps(w, s, c);
    case Edit(c, checkout) => EditKeeps(w, s, c, checkout);
    case Elsewhere(commit) => ElsewhereKeeps(w, s, commit);
  }

  // --- linear history -----------------------------------------------------------------------------

  /** In every run, push after push starts from the tip it replaces; a client's push adds exactly one commit, changes
      exactly the paths its command built, and makes no other commit reachable; no earlier tip is ever dropped. */
  lemma LinearHistory(w: World, init: State, steps: seq<Step>)
    requires Initial(init)
    ensures var s := Play(w, init, steps);
      && (forall i | 0 <= i < |s.log| :: s.log[i].old_ == TipAt(s, i))
      && s.tip == TipAt(s, |s.log|)
      && (forall i: nat, j: nat | i <= j <= |s.log| :: Ancestor(TipAt(s, i), TipAt(s, j)))
      && (forall e <- s.log | e.Landed? ::
            && e.new_.parents == [e.old_] && e.new_.tree != e.old_.tree
            && (forall p :: At(e.new_.tree, p) == if p in e.changes then e.changes[p] else At(e.old_.tree, p))
            && (forall x :: Ancestor(x, e.new_) <==> x == e.new_ || Ancestor(x, e.old_)))
  {
    hide Ancestor, BuildOp, Changed, Fresh, Knows, Play;
    Reachable(w, init, steps);
    var s := Play(w, init, steps);
    forall i: nat, j: nat | i <= j <= |s.log| ensures Ancestor(TipAt(s, i), TipAt(s, j)) {
      EarlierTip(w, s, i, j);
    }
    forall e <- s.log | e.Landed?
      ensures e.new_.parents == [e.old_] && e.new_.tree != e.old_.tree
      ensures forall p :: At(e.new_.tree, p) == if p in e.changes then e.changes[p] else At(e.old_.tree, p)
      ensures forall x :: Ancestor(x, e.new_) <==> x == e.new_ || Ancestor(x, e.old_)
    {
      OnePush(w, e);
    }
  }

  lemma OnePush(w: World, e: Entry)
    requires Clean(w, e) && e.Landed?
    ensures e.new_.parents == [e.old_] && e.new_.tree != e.old_.tree
    ensures forall p :: At(e.new_.tree, p) == if p in e.changes then e.changes[p] else At(e.old_.tree, p)
    ensures forall x :: Ancestor(x, e.new_) <==> x == e.new_ || Ancestor(x, e.old_)
  {
    hide BuildOp, Ancestor;
    forall p ensures At(e.new_.tree, p) == if p in e.changes then e.changes[p] else At(e.old_.tree, p) {
      ChangedAt(e.old_.tree, e.changes, p);
    }
    forall x ensures Ancestor(x, e.new_) <==> x == e.new_ || Ancestor(x, e.old_) {
      ChildOf(e.new_, e.old_, x);
    }
  }

  // --- no lost update -----------------------------------------------------------------------------

  /** Whatever others pushed meanwhile: what a `publish_files` commit replaced on the remote is what the client had in
      HEAD when it built, and what it put there is its working tree. */
  lemma NoLostUpdate(w: World, init: State, steps: seq<Step>)
    requires Initial(init)
    ensures var s := Play(w, init, steps);
      forall e <- s.log | e.Landed? && e.op.Publish? :: forall p <- e.op.rels ::
        && At(e.old_.tree, p) == At(e.builtOn.head, p)
        && At(e.new_.tree, p) == At(e.builtOn.work, p)
  {
    hide Fresh, Knows, Play, BuildIssue;
    Reachable(w, init, steps);
    var s := Play(w, init, steps);
    forall e <- s.log | e.Landed? && e.op.Publish?
      ensures forall p <- e.op.rels ::
        At(e.old_.tree, p) == At(e.builtOn.head, p) && At(e.new_.tree, p) == At(e.builtOn.work, p)
    {
      PublishedEntry(w, e);
    }
  }

  /** Exactly when `publish_files` builds: every chosen path is the same in HEAD and on the remote; and what: the working
      tree's content at those paths, deletions included. */
  lemma FilesBuild(rels: set<Path>, base: Tree, head: Tree, work: Tree)
    ensures BuildFiles(rels, base, head, work).Build? <==> forall p <- rels :: At(head, p) == At(base, p)
    ensures BuildFiles(rels, base, head, work).Build? ==>
      var changes := BuildFiles(rels, base, head, work).changes;
      changes.Keys == rels && forall p <- rels :: changes[p] == if p in work then Some(work[p]) else None
  {
  }

  lemma PublishedEntry(w: World, e: Entry)
    requires Clean(w, e) && e.Landed? && e.op.Publish?
    ensures forall p <- e.op.rels ::
      At(e.old_.tree, p) == At(e.builtOn.head, p) && At(e.new_.tree, p) == At(e.builtOn.work, p)
  {
    hide Changed, BuildIssue;
    forall p <- e.op.rels
      ensures At(e.old_.tree, p) == At(e.builtOn.head, p) && At(e.new_.tree, p) == At(e.builtOn.work, p)
    {
      ChangedAt(e.old_.tree, e.changes, p);
    }
  }

  // --- progress -----------------------------------------------------------------------------------

  /** A client that gives up saw at least five pushes of others land since its command began. */
  lemma GivingUpMeansProgress(w: World, init: State, steps: seq<Step>, c: nat)
    requires Initial(init)
    ensures var s := Play(w, init, steps);
      c in s.clients && s.clients[c].phase.GaveUp? ==>
        && s.clients[c].start + 5 <= |s.log|
        && ByOthers(s.log, c, s.clients[c].start)
  {
    hide Fresh, Chained, Play;
    Reachable(w, init, steps);
    var s := Play(w, init, steps);
    if c in s.clients {
      assert Knows(w, s, c);
    }
  }

  /** A push is rejected only when someone else's push landed between the client's fetch and its push. */
  lemma RejectionMeansProgress(w: World, init: State, steps: seq<Step>, c: nat)
    requires Initial(init)
    ensures var s := Play(w, init, steps);
      c in s.clients && s.clients[c].phase.Pushing? ==>
        && (DoPush(s, c).tip == s.tip <==> s.clients[c].phase.seen < |s.log|)
        && ByOthers(s.log, c, s.clients[c].phase.seen)
  {
    hide Fresh, Chained, Play, Ancestor, BuildOp, Changed;
    Reachable(w, init, steps);
    var s := Play(w, init, steps);
    if c in s.clients && s.clients[c].phase.Pushing? {
      assert Knows(w, s, c);
      PushIsCompareAndSwap(w, s, c);
      NotOnRemote(w, s, c);
      AncestorSelf(s.tip);
    }
  }

  /** A client that nobody interrupts lands: its next attempt puts what its command builds on top of the tip. */
  lemma AloneItLands(w: World, s: State, c: nat)
    requires c in s.clients && s.clients[c].phase.Ready?
    requires var me := s.clients[c];
      var built := BuildOp(w, me.op, s.tip.tree, me.checkout.head, me.checkout.work);
      built.Build? && Changed(s.tip.tree, built.changes) != s.tip.tree
    ensures var me := s.clients[c];
      var changes := BuildOp(w, me.op, s.tip.tree, me.checkout.head, me.checkout.work).changes;
      var after := Play(w, s, [Fetch(c), BuildStep(c), Push(c)]);
      var commit := Commit([s.tip], Changed(s.tip.tree, changes), Tool(c, me.serial));
      && c in after.clients && after.clients[c].phase == Pushed(commit) && after.tip == commit
      && after.log == s.log + [Landed(c, me.op, changes, me.checkout, s.tip, commit)]
  {
    hide BuildOp, Changed, Ancestor, Play, Do;
    var me := s.clients[c];
    var n := me.phase.attempt;
    var changes := BuildOp(w, me.op, s.tip.tree, me.checkout.head, me.checkout.work).changes;
    var commit := Commit([s.tip], Changed(s.tip.tree, changes), Tool(c, me.serial));
    var fetched := With(s, c, me.(phase := Fetched(n, s.tip, |s.log|)));
    var built := With(fetched, c, me.(serial := me.serial + 1,
                      phase := Pushing(n, s.tip, |s.log|, commit, changes, me.checkout)));
    assert Do(w, s, Fetch(c)) == fetched by { FetchDone(w, s, c); }
    assert Do(w, fetched, BuildStep(c)) == built by { BuildDone(w, fetched, c, changes); }
    ChildOf(commit, s.tip, s.tip);
    PushDone(w, built, c);
    PlayThree(w, s, Fetch(c), BuildStep(c), Push(c));
  }

  lemma FetchDone(w: World, s: State, c: nat)
    requires c in s.clients && s.clients[c].phase.Ready?
    ensures Do(w, s, Fetch(c)) == With(s, c, s.clients[c].(phase := Fetched(s.clients[c].phase.attempt, s.tip, |s.log|)))
  {
  }

  lemma BuildDone(w: World, s: State, c: nat, changes: Changes)
    requires c in s.clients && s.clients[c].phase.Fetched?
    requires var me := s.clients[c];
      var base := me.phase.base;
      BuildOp(w, me.op, base.tree, me.checkout.head, me.checkout.work) == Build(changes)
      && Changed(base.tree, changes) != base.tree
    ensures var me := s.clients[c];
      var f := me.phase;
      var commit := Commit([f.base], Changed(f.base.tree, changes), Tool(c, me.serial));
      Do(w, s, BuildStep(c)) == With(s, c, me.(serial := me.serial + 1,
        phase := Pushing(f.attempt, f.base, f.seen, commit, changes, me.checkout)))
  {
    hide BuildOp, Changed;
  }

  lemma PushDone(w: World, s: State, c: nat)
    requires c in s.clients && s.clients[c].phase.Pushing? && Ancestor(s.tip, s.clients[c].phase.commit)
    ensures var me := s.clients[c];
      var f := me.phase;
      var after := Do(w, s, Push(c));
      && c in after.clients && after.clients[c].phase == Pushed(f.commit) && after.tip == f.commit
      && after.log == s.log + [Landed(c, me.op, f.changes, f.builtOn, s.tip, f.commit)]
  {
    hide Ancestor;
  }

  lemma PlayThree(w: World, s: State, a: Step, b: Step, c: Step)
    ensures Play(w, s, [a, b, c]) == Do(w, Do(w, Do(w, s, a), b), c)
  {
    hide Do;
    assert [a, b, c][..2] == [a, b] && [a, b][..1] == [a] && [a][..0] == [];
    assert Play(w, s, [a]) == Do(w, s, a);
    assert Play(w, s, [a, b]) == Do(w, Do(w, s, a), b);
  }
}
