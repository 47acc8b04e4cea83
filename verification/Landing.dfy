/** Bringing a pushed commit into a dirty checkout: the second half of `_push_commit` of tools/issues/issues.py. */
module Landing {
  import opened Text
  import opened Check
  import opened Protocol

  // --- merging ------------------------------------------------------------------------------------

  /** How git merges one file that both sides changed differently: the merged file, or None for a conflict. */
  type TextMerge = (Option<string>, Option<string>, Option<string>) -> Option<Option<string>>

  /** The three-way merge of one path: base, ours, theirs. */
  function Merge3(m: TextMerge, o: Option<string>, h: Option<string>, c: Option<string>): Option<Option<string>> {
    if h == c then Some(h) else if o == h then Some(c) else if o == c then Some(h) else m(o, h, c)
  }

  function MergePath(m: TextMerge, base: Tree, ours: Tree, theirs: Tree, p: Path): Option<Option<string>> {
    Merge3(m, At(base, p), At(ours, p), At(theirs, p))
  }

  predicate Conflicted(m: TextMerge, base: Tree, ours: Tree, theirs: Tree) {
    exists p <- base.Keys + ours.Keys + theirs.Keys :: MergePath(m, base, ours, theirs, p).None?
  }

  function Merged(m: TextMerge, base: Tree, ours: Tree, theirs: Tree): Tree
    requires !Conflicted(m, base, ours, theirs)
  {
    map p | p in base.Keys + ours.Keys + theirs.Keys && MergePath(m, base, ours, theirs, p) != Some(None)
      :: MergePath(m, base, ours, theirs, p).value.value
  }

  lemma MergedAt(m: TextMerge, base: Tree, ours: Tree, theirs: Tree, p: Path)
    requires !Conflicted(m, base, ours, theirs)
    ensures MergePath(m, base, ours, theirs, p) == Some(At(Merged(m, base, ours, theirs), p))
  {
    var merged := Merged(m, base, ours, theirs);
    var paths := base.Keys + ours.Keys + theirs.Keys;
    if p in paths {
      assert MergePath(m, base, ours, theirs, p).Some?;
      assert p in merged <==> MergePath(m, base, ours, theirs, p).value.Some?;
    } else {
      assert p !in base && p !in ours && p !in theirs;
    }
  }

  /** When a merge keeps what was pushed: HEAD has it already, or HEAD still is the merge base there, or the file merge
      gives it back. It does not when the pushed text takes the file back to the merge base. */
  predicate Keeps(m: TextMerge, o: Option<string>, h: Option<string>, c: Option<string>) {
    h == c || o == h || (o != c && m(o, h, c) == Some(c))
  }

  lemma KeepsExactly(m: TextMerge, o: Option<string>, h: Option<string>, c: Option<string>)
    ensures Merge3(m, o, h, c) == Some(c) <==> Keeps(m, o, h, c)
  {
  }

  lemma KeptPaths(m: TextMerge, base: Tree, ours: Tree, theirs: Tree, changes: Changes)
    requires forall p <- changes :: At(theirs, p) == changes[p]
    ensures forall p <- changes ::
      MergePath(m, base, ours, theirs, p) == Some(changes[p]) <==> Keeps(m, At(base, p), At(ours, p), changes[p])
  {
    forall p <- changes
      ensures MergePath(m, base, ours, theirs, p) == Some(changes[p]) <==> Keeps(m, At(base, p), At(ours, p), changes[p])
    {
      KeepsExactly(m, At(base, p), At(ours, p), changes[p]);
    }
  }

  function Set(tree: Tree, p: Path, text: Option<string>): Tree {
    if text.Some? then tree[p := text.value] else tree - {p}
  }

  // --- the checkout -------------------------------------------------------------------------------

  datatype Outcome = FastForwarded | MergedIn | NotUpdated | Raised

  predicate Touches(from: Commit, to: Commit, p: Path) {
    At(from.tree, p) != At(to.tree, p)
  }

  class Repo {
    var head: Commit
    var index: Tree
    var work: Tree

    /** `git diff --quiet HEAD -- path` finds a difference: a path the index dropped counts as deleted. */
    predicate Differs(p: Path)
      reads this
    {
      p !in index || At(work, p) != At(head.tree, p)
    }

    /** What git will not overwrite. */
    predicate Dirty(p: Path)
      reads this
    {
      At(work, p) != At(head.tree, p) || At(index, p) != At(head.tree, p)
    }

    /** Nothing is staged, and nothing but the published paths is edited. */
    ghost predicate OnlyEdits(changes: Changes)
      reads this
    {
      forall p :: At(index, p) == At(head.tree, p) && (p !in changes ==> At(work, p) == At(head.tree, p))
    }

    constructor (head: Commit, work: Tree)
      ensures this.head == head && this.work == work && index == head.tree
    {
      this.head, this.index, this.work := head, head.tree, work;
    }

    /** Checks out `tree` over HEAD's, unless that overwrites an uncommitted change. */
    method Switch(commit: Commit) returns (ok: bool)
      modifies this
      ensures ok ==> head == commit
      ensures ok ==>
        forall p :: At(work, p) == At(if Touches(old(head), commit, p) then commit.tree else old(work), p)
      ensures ok ==>
        forall p :: At(index, p) == At(if Touches(old(head), commit, p) then commit.tree else old(index), p)
      ensures ok <==> forall p :: Touches(old(head), commit, p) ==> !old(Dirty(p))
      ensures !ok ==> head == old(head) && index == old(index) && work == old(work)
    {
      var touched := set p | p in head.tree.Keys + commit.tree.Keys && At(head.tree, p) != At(commit.tree, p);
      if exists p <- touched :: Dirty(p) {
        return false;
      }
      work := map p | p in work.Keys + touched && (p in touched ==> p in commit.tree)
        :: if p in touched then commit.tree[p] else work[p];
      index := map p | p in index.Keys + touched && (p in touched ==> p in commit.tree)
        :: if p in touched then commit.tree[p] else index[p];
      head := commit;
      return true;
    }

    /** `git merge <commit>`, with the merge base git finds; a conflict is aborted. */
    method Merge(commit: Commit, base: Tree, m: TextMerge) returns (ok: bool)
      modifies this
      ensures ok ==> !Conflicted(m, base, old(head).tree, commit.tree)
      ensures ok ==> head.parents == [old(head), commit]
      ensures ok ==> head.tree == Merged(m, base, old(head).tree, commit.tree)
      ensures ok ==>
        forall p :: At(work, p) == At(if Touches(old(head), head, p) then head.tree else old(work), p)
      ensures ok ==>
        forall p :: At(index, p) == At(if Touches(old(head), head, p) then head.tree else old(index), p)
      ensures ok <==>
        && !Conflicted(m, base, old(head).tree, commit.tree)
        && forall p :: At(old(head).tree, p) != At(Merged(m, base, old(head).tree, commit.tree), p) ==> !old(Dirty(p))
      ensures !ok ==> head == old(head) && index == old(index) && work == old(work)
    {
      if Conflicted(m, base, head.tree, commit.tree) {
        return false;
      }
      ok := Switch(Commit([head, commit], Merged(m, base, head.tree, commit.tree), Outside(0)));
    }

    /** A path that the checkout holds uncommitted. */
    predicate Held(p: Path)
      reads this
    {
      if p in head.tree then Differs(p) else p in work || p in index
    }

    /** The held-paths loop: every path the commit carries that is held uncommitted goes back to HEAD. */
    method Hold(order: seq<Path>) returns (held: seq<Path>)
      modifies this
      ensures head == old(head)
      ensures forall p :: p in held <==> p in order && old(Held(p))
      ensures forall p | p in order && p in head.tree ::
        p in held <==> p !in old(index) || At(old(work), p) != Some(head.tree[p])
      ensures forall p | p in order && p !in head.tree :: p in held <==> p in old(work) || p in old(index)
      ensures forall p :: p in held ==> At(work, p) == At(head.tree, p) && At(index, p) == At(head.tree, p)
      ensures forall p :: p !in held ==> At(work, p) == At(old(work), p) && At(index, p) == At(old(index), p)
      ensures forall p <- order :: At(work, p) == At(head.tree, p)
    {
      held := [];
      for i := 0 to |order|
        invariant head == old(head)
        invariant forall p :: p in held <==> p in order[..i] && old(Held(p))
        invariant forall p :: p in held ==> At(work, p) == At(head.tree, p) && At(index, p) == At(head.tree, p)
        invariant forall p :: p !in held ==> At(work, p) == At(old(work), p) && At(index, p) == At(old(index), p)
      {
        var path := order[i];
        assert order[..i + 1] == order[..i] + [path];
        if path in head.tree {
          if Differs(path) {
            work, index := work[path := head.tree[path]], index[path := head.tree[path]];
            held := held + [path];
          }
        } else if path in work || path in index {
          work, index := work - {path}, index - {path};
          held := held + [path];
        }
      }
      assert order[..|order|] == order;
    }

    /** The last loop: a checkout that was not updated gets its edits back. */
    method Restore(held: seq<Path>, changes: Changes)
      requires forall p <- held :: p in changes
      modifies this`work
      ensures forall p :: At(work, p) == if p in held then changes[p] else At(old(work), p)
    {
      for i := 0 to |held|
        invariant forall p :: At(work, p) == if p in held[..i] then changes[p] else At(old(work), p)
      {
        assert held[..i + 1] == held[..i] + [held[i]];
        work := Set(work, held[i], changes[held[i]]);
      }
      assert held[..|held|] == held;
    }

    /** The fast-forward, or the merge on a branch. */
    method Update(commit: Commit, onBranch: bool, base: Tree, m: TextMerge) returns (outcome: Outcome)
      modifies this
      ensures outcome.FastForwarded? ==> head == commit
      ensures outcome.MergedIn? ==>
        && head.parents == [old(head), commit]
        && forall p :: MergePath(m, base, old(head).tree, commit.tree, p) == Some(At(head.tree, p))
      ensures outcome.NotUpdated? || outcome.Raised? ==>
        head == old(head) && index == old(index) && work == old(work)
      ensures forall p ::
        && At(work, p) == At(if Touches(old(head), head, p) then head.tree else old(work), p)
        && At(index, p) == At(if Touches(old(head), head, p) then head.tree else old(index), p)
        && (Touches(old(head), head, p) ==> !old(Dirty(p)))
      ensures (forall p :: !old(Dirty(p))) ==>
        (outcome ==
         if Ancestor(old(head), commit) then FastForwarded
         else if onBranch && !Conflicted(m, base, old(head).tree, commit.tree) then MergedIn
         else NotUpdated)
    {
      hide Conflicted, Merged, Ancestor, Dirty, MergePath;
      ghost var ours := head.tree;
      if Ancestor(head, commit) {
        var ok := Switch(commit);
        return if ok then FastForwarded else Raised;
      }
      if onBranch {
        var ok := Merge(commit, base, m);
        if ok {
          forall p ensures MergePath(m, base, ours, commit.tree, p) == Some(At(head.tree, p)) {
            MergedAt(m, base, ours, commit.tree, p);
          }
          return MergedIn;
        }
      }
      return NotUpdated;
    }

    /** Everything after the push: hold, fast-forward or merge, or give the edits back. `order` is the changes'
        paths and `base` the merge base git finds. For `publish_files` the working tree still is what `build` read. */
    method Land(commit: Commit, order: seq<Path>, changes: Changes, onBranch: bool, base: Tree, m: TextMerge)
      returns (outcome: Outcome)
      requires forall p :: p in order <==> p in changes
      requires forall p <- changes :: At(commit.tree, p) == changes[p]
      modifies this
      ensures outcome.FastForwarded? ==> forall p <- changes :: At(work, p) == changes[p]
      ensures outcome.NotUpdated? ==> forall p <- changes ::
        At(work, p) == if old(Held(p)) then changes[p] else At(old(work), p)
      ensures outcome.NotUpdated? ==> forall p <- changes ::
        At(old(work), p) == changes[p] ==> At(work, p) == changes[p]
      ensures outcome.MergedIn? ==> forall p <- changes ::
        Some(At(work, p)) == MergePath(m, base, old(head).tree, commit.tree, p)
      ensures outcome.MergedIn? ==> forall p <- changes ::
        At(work, p) == changes[p] <==> Keeps(m, At(base, p), At(old(head).tree, p), changes[p])
      ensures !outcome.Raised? ==> forall p | p !in changes && At(old(work), p) != At(old(head).tree, p) ::
        At(work, p) == At(old(work), p)
      ensures !outcome.Raised? ==> forall p | p !in changes ::
        && At(work, p) == At(if Touches(old(head), head, p) then head.tree else old(work), p)
        && At(index, p) == At(if Touches(old(head), head, p) then head.tree else old(index), p)
      ensures outcome.FastForwarded? || outcome.MergedIn? ==> forall p <- changes ::
        Dirty(p) <==> !old(Held(p)) && At(old(index), p) != At(old(head).tree, p)
      ensures outcome.NotUpdated? ==> forall p <- changes ::
        At(index, p) == At(if old(Held(p)) then head.tree else old(index), p)
      ensures outcome.NotUpdated? ==> head == old(head)
      ensures outcome.FastForwarded? ==> head == commit
      ensures outcome.MergedIn? ==> head.parents == [old(head), commit]
      ensures old(OnlyEdits(changes)) ==>
        (outcome ==
         if Ancestor(old(head), commit) then FastForwarded
         else if onBranch && !Conflicted(m, base, old(head).tree, commit.tree) then MergedIn
         else NotUpdated)
    {
      hide Conflicted, Ancestor, Keeps, MergePath, Differs;
      KeptPaths(m, base, head.tree, commit.tree, changes);
      var held := Hold(order);
      assert old(OnlyEdits(changes)) ==> forall p :: !Dirty(p);
      hide OnlyEdits, Held;
      outcome := Update(commit, onBranch, base, m);
      if outcome.NotUpdated? {
        Restore(held, changes);
      }
    }
  }

  /** Publishing never alters what it publishes, when no unpushed commit touched the chosen paths since the merge base:
      whatever the file merge does, the merge of a `publish_files` commit has the working tree's content at every one
      of them, and none of them conflicts. */
  lemma UntouchedIsKept(m: TextMerge, base: Tree, head: Tree, remote: Tree, work: Tree, rels: set<Path>)
    requires BuildFiles(rels, remote, head, work).Build? && forall p <- rels :: At(base, p) == At(head, p)
    ensures var pushed := Changed(remote, BuildFiles(rels, remote, head, work).changes);
      && (forall p <- rels :: MergePath(m, base, head, pushed, p) == Some(At(work, p)))
      && (!Conflicted(m, base, head, pushed) ==> forall p <- rels :: At(Merged(m, base, head, pushed), p) == At(work, p))
  {
    hide Changed, Conflicted, Merged;
    var changes := BuildFiles(rels, remote, head, work).changes;
    var pushed := Changed(remote, changes);
    forall p <- rels ensures MergePath(m, base, head, pushed, p) == Some(At(work, p)) {
      ChangedAt(remote, changes, p);
    }
    if !Conflicted(m, base, head, pushed) {
      forall p <- rels ensures At(Merged(m, base, head, pushed), p) == At(work, p) {
        MergedAt(m, base, head, pushed, p);
      }
    }
  }

  /** A published text that is lost from the checkout: the remote and an unpushed commit made the same edit, and the
      working tree takes it back. `publish_files` accepts and pushes that, and the merge undoes it here. */
  method RevertIsLost(m: TextMerge, path: Path, text: string, other: string)
    returns (built: Built, outcome: Outcome, work: Tree)
    requires text != other
    ensures built == Build(map[path := Some(text)]) && outcome == MergedIn && At(work, path) == Some(other)
  {
    var root := Commit([], map[path := text], Outside(0));
    var remote := Commit([root], map[path := other], Outside(1));
    var mine := Commit([root], map[path := other], Outside(2));
    var edited := map[path := text];
    built := BuildFiles({path}, remote.tree, mine.tree, edited);
    var changes: Changes := map[path := Some(text)];
    assert built.changes == changes;
    ChangedAt(remote.tree, changes, path);
    var commit := Commit([remote], Changed(remote.tree, changes), Tool(0, 0));
    assert commit.tree == map[path := text];
    NotAnAncestor(root, remote, mine, commit);
    assert !Conflicted(m, root.tree, mine.tree, commit.tree);
    var repo := new Repo(mine, edited);
    assert repo.OnlyEdits(changes);
    outcome := repo.Land(commit, [path], changes, true, root.tree, m);
    work := repo.work;
    MergedAt(m, root.tree, mine.tree, commit.tree, path);
  }

  lemma NotAnAncestor(root: Commit, remote: Commit, mine: Commit, commit: Commit)
    requires root.parents == [] && remote.parents == [root] && commit.parents == [remote]
    requires mine != root && mine != remote && mine != commit
    ensures !Ancestor(mine, commit)
  {
    ChildOf(commit, remote, mine);
    ChildOf(remote, root, mine);
  }
}
