/** The edit server writes, checks again and takes back: `State` of tools/issues/issues_serve.py. */
module EditServer {
  import opened Text
  import opened Frontmatter
  import opened Notes
  import opened Check

  /** The messages `issues check` has for the issue at `path`. */
  function Messages(w: World, files: Tree, path: Path): set<Problem>
    requires path in files
  {
    Problems(w, files, path, files[path])
  }

  /** A message that counts the lines of an issue file, the one thing an edit can change under another issue. */
  predicate CountsIssue(w: World, p: Problem) {
    p.RefLinesOutside? && w.isIssue(p.rel)
  }

  /** From `a` to `b` no file comes or goes, and no issue gains a message, those counting an issue's lines aside. */
  predicate NoWorse(w: World, a: Tree, b: Tree) {
    && a.Keys == b.Keys
    && forall p, m | p in b.Keys && m in Messages(w, b, p) :: m in Messages(w, a, p) || CountsIssue(w, m)
  }

  lemma SameKeys(w: World, a: Tree, b: Tree)
    requires NoWorse(w, a, b)
    ensures a.Keys == b.Keys
  {
    hide Messages;
  }

  lemma NoWorseReflexive(w: World, a: Tree)
    ensures NoWorse(w, a, a)
  {
  }

  lemma NoWorseTransitive(w: World, a: Tree, b: Tree, c: Tree)
    requires NoWorse(w, a, b) && NoWorse(w, b, c)
    ensures NoWorse(w, a, c)
  {
    hide Problems;
    forall p, m | p in c.Keys && m in Messages(w, c, p) ensures m in Messages(w, a, p) || CountsIssue(w, m) {
      assert p in b.Keys;
      assert m in Messages(w, b, p) || CountsIssue(w, m);
    }
  }

  /** An edit that breaks nothing in its own file makes no other issue worse. */
  lemma WriteNoWorse(w: World, a: Tree, path: Path, text: string)
    requires path in a && w.isIssue(path)
    requires Messages(w, a[path := text], path) <= Messages(w, a, path)
    ensures NoWorse(w, a, a[path := text])
  {
    hide Problems;
    var b := a[path := text];
    assert a.Keys == b.Keys;
    forall p, m | p in b.Keys && m in Messages(w, b, p) ensures m in Messages(w, a, p) || CountsIssue(w, m) {
      if p != path && !CountsLines(m, path) {
        OthersUnaffected(w, a, b, path, p, b[p], m);
      }
    }
  }

  /** One request: the issues it names, and what it writes into each, or None when it refuses. */
  datatype Request = Request(names: seq<string>, edit: string -> Option<string>)

  /** The text an edit wants: fields if there are any, then notes. */
  function Edited(text: string, updates: seq<Field>, notes: Option<string>): string {
    var fielded := if updates == [] then text else FieldsSet(text, updates);
    if notes.Some? then NotesSet(fielded, notes.value) else fielded
  }

  /** Each part of an edit alone, and both together. */
  lemma EditedIs(text: string, updates: seq<Field>, notes: string)
    requires updates != []
    ensures Edited(text, [], None) == text
    ensures Edited(text, updates, None) == FieldsSet(text, updates)
    ensures Edited(text, [], Some(notes)) == NotesSet(text, notes)
    ensures Edited(text, updates, Some(notes)) == NotesSet(FieldsSet(text, updates), notes)
  {
    hide FieldsSet, NotesSet;
  }

  class Server {
    var files: Tree
    var touched: set<Path>
    const w: World
    /** `Workspace.lookup`: the issue file a name stands for, which depends on the file names alone. */
    const lookup: (set<Path>, string) -> Option<Path>

    ghost predicate Valid() {
      forall paths, name :: lookup(paths, name).Some? ==>
        lookup(paths, name).value in paths && w.isIssue(lookup(paths, name).value)
    }

    constructor (w: World, lookup: (set<Path>, string) -> Option<Path>, files: Tree)
      ensures this.w == w && this.lookup == lookup && this.files == files && touched == {}
    {
      this.w, this.lookup, this.files, this.touched := w, lookup, files, {};
    }

    /** `_write` */
    method Write(path: Path, text: string) returns (ok: bool)
      requires path in files && w.isIssue(path)
      modifies this
      ensures NoWorse(w, old(files), files)
      ensures ok ==> files == old(files)[path := text]
      ensures ok ==> Messages(w, files, path) <= Messages(w, old(files), path)
      ensures ok ==> forall p <- old(files) | p != path ::
        Messages(w, files, p) <= Messages(w, old(files), p) <==> Spared(w, old(files), path, text, p)
      ensures ok ==> touched == if text != old(files)[path] then old(touched) + {path} else old(touched)
      ensures !ok ==> files == old(files) && touched == old(touched)
      ensures !ok ==> !(Messages(w, old(files)[path := text], path) <= Messages(w, old(files), path))
    {
      hide Messages, NoWorse, Spared;
      NoWorseReflexive(w, files);
      forall p <- files | p != path
        ensures Messages(w, files[path := text], p) <= Messages(w, files, p) <==> Spared(w, files, path, text, p)
      {
        EditSpares(w, files, path, text, p);
      }
      if text == files[path] {
        assert files[path := text] == files;
        return true;
      }
      var before := Messages(w, files, path);
      var original := files[path];
      files := files[path := text];
      if !(Messages(w, files, path) <= before) {
        files := files[path := original];
        assert files == old(files);
        return false;
      }
      touched := touched + {path};
      WriteNoWorse(w, old(files), path, text);
      return true;
    }

    /** `edit`; `updates` is what `_updates` made of the request, None when it refused. The edit is written exactly when
        the issue is found and gains no message. */
    method Edit(name: string, updates: Option<seq<Field>>, notes: Option<string>) returns (ok: bool)
      requires Valid()
      modifies this
      ensures NoWorse(w, old(files), files)
      ensures !ok ==> files == old(files) && touched == old(touched)
      ensures ok <==>
        && updates.Some? && lookup(old(files).Keys, name).Some?
        && var path := lookup(old(files).Keys, name).value;
           var text := Edited(old(files)[path], updates.value, notes);
           Messages(w, old(files)[path := text], path) <= Messages(w, old(files), path)
      ensures ok ==>
        var path := lookup(old(files).Keys, name).value;
        var text := Edited(old(files)[path], updates.value, notes);
        && files == old(files)[path := text]
        && touched == if text != old(files)[path] then old(touched) + {path} else old(touched)
    {
      hide Messages, NoWorse, Spared;
      NoWorseReflexive(w, files);
      var found := lookup(files.Keys, name);
      if found.None? || updates.None? {
        return false;
      }
      var text := files[found.value];
      if updates.value != [] {
        text := SetFields(text, updates.value);
      }
      if notes.Some? {
        text := SetNotes(text, notes.value);
      }
      ok := Write(found.value, text);
    }

    /** The files after edit `n` of a request. */
    ghost function AppliedOne(now: Tree, request: Request, n: nat): (after: Tree)
      requires n < |request.names|
      ensures after.Keys == now.Keys
    {
      var found := lookup(now.Keys, request.names[n]);
      if found.Some? && found.value in now && request.edit(now[found.value]).Some?
      then now[found.value := request.edit(now[found.value]).value]
      else now
    }

    /** The files after the first `n` edits of a request. */
    ghost function Applied(before: Tree, request: Request, n: nat): (after: Tree)
      requires n <= |request.names|
      ensures after.Keys == before.Keys
    {
      if n == 0 then before else AppliedOne(Applied(before, request, n - 1), request, n - 1)
    }

    /** Every name of a request finds a file, and the request has a text for it. */
    predicate Finds(before: Tree, request: Request, paths: seq<Path>) {
      && |request.names| == |paths|
      && forall i | 0 <= i < |paths| ::
           && lookup(before.Keys, request.names[i]) == Some(paths[i]) && paths[i] in before
           && request.edit(before[paths[i]]).Some?
    }

    lemma AppliedNext(before: Tree, request: Request, paths: seq<Path>, n: nat)
      requires n < |paths| && Finds(before, request, paths)
      requires Applied(before, request, n)[paths[n]] == before[paths[n]]
      ensures Applied(before, request, n + 1) ==
        Applied(before, request, n)[paths[n] := request.edit(before[paths[n]]).value]
    {
    }

    /** A request that finds another file for each of its names leaves each as it edits it, and no other changed. */
    lemma {:induction false} AppliedAll(before: Tree, request: Request, paths: seq<Path>, n: nat)
      requires Finds(before, request, paths) && n <= |paths|
      requires forall i, j | 0 <= i < j < |paths| :: paths[i] != paths[j]
      ensures var after := Applied(before, request, n);
        && (forall i | 0 <= i < n :: Some(after[paths[i]]) == request.edit(before[paths[i]]))
        && (forall p | p in before && p !in paths[..n] :: after[p] == before[p])
      decreases n
    {
      hide Applied;
      if n == 0 {
        AppliedNone(before, request);
      } else {
        AppliedAll(before, request, paths, n - 1);
        assert paths[..n] == paths[..n - 1] + [paths[n - 1]];
        AppliedNext(before, request, paths, n - 1);
      }
    }

    lemma AppliedNone(before: Tree, request: Request)
      ensures Applied(before, request, 0) == before
    {
    }

    /** Edit `n` of a request is refused: its issue is not found, there is no text for it, or it would gain a message. */
    ghost predicate Refuses(now: Tree, request: Request, n: nat)
      requires Valid() && n < |request.names|
    {
      var found := lookup(now.Keys, request.names[n]);
      || found.None?
      || request.edit(now[found.value]).None?
      || !(Messages(w, now[found.value := request.edit(now[found.value]).value], found.value)
           <= Messages(w, now, found.value))
    }

    /** How many edits of a request are made, from the `n`-th on, until one is refused. */
    ghost function Stopped(before: Tree, request: Request, n: nat): (k: nat)
      requires Valid() && n <= |request.names|
      ensures n <= k <= |request.names|
      decreases |request.names| - n
    {
      if n == |request.names| || Refuses(Applied(before, request, n), request, n) then n
      else Stopped(before, request, n + 1)
    }

    /** That is the first edit which is refused, and every one before it is made. */
    lemma {:induction false} StoppedIs(before: Tree, request: Request, n: nat, k: nat)
      requires Valid() && n <= k <= |request.names|
      ensures k == Stopped(before, request, n) <==>
        && (forall i | n <= i < k :: !Refuses(Applied(before, request, i), request, i))
        && (k < |request.names| ==> Refuses(Applied(before, request, k), request, k))
      decreases |request.names| - n
    {
      hide Refuses, Applied;
      if n < |request.names| {
        if Refuses(Applied(before, request, n), request, n) {
          assert Stopped(before, request, n) == n;
          assert n < k ==> exists i | n <= i < k :: Refuses(Applied(before, request, i), request, i);
        } else {
          assert Stopped(before, request, n) == Stopped(before, request, n + 1);
          if n < k {
            StoppedIs(before, request, n + 1, k);
          }
        }
      }
    }

    /** The files after some requests, each made up to its first refusal. */
    ghost function Served(before: Tree, requests: seq<Request>): Tree
      requires Valid()
    {
      if requests == [] then before
      else
        var n := |requests| - 1;
        var now := Served(before, requests[..n]);
        Applied(now, requests[n], Stopped(now, requests[n], 0))
    }

    /** One round of the loop. */
    method EditOne(request: Request, n: nat) returns (ok: bool)
      requires Valid() && n < |request.names|
      modifies this
      ensures NoWorse(w, old(files), files)
      ensures ok <==> !Refuses(old(files), request, n)
      ensures files == if ok then AppliedOne(old(files), request, n) else old(files)
    {
      hide Messages, NoWorse, Spared;
      NoWorseReflexive(w, files);
      var found := lookup(files.Keys, request.names[n]);
      if found.None? {
        return false;
      }
      var text := request.edit(files[found.value]);
      if text.None? {
        return false;
      }
      ok := Write(found.value, text.value);
    }

    /** The loops of `bulk` and `rename_tag`: issue after issue, until one is refused. */
    method EditEach(request: Request) returns (ok: bool)
      requires Valid()
      modifies this
      ensures NoWorse(w, old(files), files)
      ensures files == Applied(old(files), request, Stopped(old(files), request, 0))
      ensures ok <==> Stopped(old(files), request, 0) == |request.names|
    {
      hide NoWorse, Refuses, AppliedOne, Stopped;
      NoWorseReflexive(w, files);
      for i := 0 to |request.names|
        invariant NoWorse(w, old(files), files) && files == Applied(old(files), request, i)
        invariant forall k | 0 <= k < i :: !Refuses(Applied(old(files), request, k), request, k)
      {
        ghost var before := files;
        ok := EditOne(request, i);
        NoWorseTransitive(w, old(files), before, files);
        if !ok {
          StoppedIs(old(files), request, 0, i);
          return false;
        }
      }
      StoppedIs(old(files), request, 0, |request.names|);
      return true;
    }

    /** Over any sequence of requests, taken or refused, no issue gains a message; a single edit is a request that names
        one issue. The exception are messages about line ranges in issue files, and those are new exactly where the
        ranges are not kept. */
    method Serve(requests: seq<Request>)
      requires Valid()
      modifies this
      ensures NoWorse(w, old(files), files)
      ensures files == Served(old(files), requests)
      ensures files.Keys == old(files).Keys && forall p <- files ::
        Messages(w, files, p) <= Messages(w, old(files), p)
        <==> w.place(p).closed || RangesKept(w, old(files), files, p)
    {
      hide Messages, NoWorse, RangesKept, Applied, Stopped;
      NoWorseReflexive(w, files);
      for i := 0 to |requests|
        invariant NoWorse(w, old(files), files) && files == Served(old(files), requests[..i])
      {
        assert requests[..i + 1][..i] == requests[..i];
        ghost var before := files;
        var ok := EditEach(requests[i]);
        NoWorseTransitive(w, old(files), before, files);
      }
      assert requests[..|requests|] == requests;
      assert files.Keys == old(files).Keys by { SameKeys(w, old(files), files); }
      forall p <- files
        ensures Messages(w, files, p) <= Messages(w, old(files), p)
          <==> w.place(p).closed || RangesKept(w, old(files), files, p)
      {
        MessagesOnlyShrink(w, old(files), files, p);
      }
    }
  }

  // --- line ranges --------------------------------------------------------------------------------

  /** The issue has the `file` ref `value`. */
  predicate Names(w: World, text: string, value: string) {
    var meta := Read(w, text).0;
    "refs" in meta && meta["refs"].List? && Mapping([("file", Str(value))]) in meta["refs"].items
  }

  /** How many lines `_check_issue` counts at a path, a directory having none. */
  function Count(w: World, files: Tree, rel: Path): Option<nat> {
    match FileLines(w, files, rel)
    case None => None
    case Some(n) => Some(if n < 0 then 0 else n)
  }

  /** The ref names no line range, or one inside `n` lines. */
  predicate Fits(w: World, value: string, n: nat) {
    var lines := w.fileRef(value).lines;
    lines.Some? ==> 1 <= lines.value.0 <= lines.value.1 <= n
  }

  predicate Outside(w: World, files: Tree, value: string) {
    var n := Count(w, files, w.fileRef(value).rel);
    n.Some? && !Fits(w, value, n.value)
  }

  predicate NoCounts(ps: set<Problem>) {
    forall p <- ps :: !p.RefLinesOutside?
  }

  lemma LoadCounts(w: World, path: Path, text: string)
    ensures NoCounts(LoadErrors(w, path, text))
  {
    hide Titled, Split, Body, Front;
  }

  lemma WhenCounts(broken: bool, p: Problem)
    requires !p.RefLinesOutside?
    ensures NoCounts(When(broken, p))
  {
  }

  lemma ShapeCounts(meta: Meta)
    ensures NoCounts(ShapeProblems(meta))
  {
    hide When, DateShaped, StampShaped;
    WhenCounts("created" in meta && !(meta["created"].Str? && DateShaped(meta["created"].s)), BadShape("created"));
    WhenCounts("closed" in meta && !(meta["closed"].Str? && DateShaped(meta["closed"].s)), BadShape("closed"));
    WhenCounts("claimed-at" in meta && !(meta["claimed-at"].Str? && StampShaped(meta["claimed-at"].s)), BadShape("claimed-at"));
  }

  lemma ValueCounts(meta: Meta)
    ensures NoCounts(ValueProblems(meta))
  {
    hide Allowed;
  }

  lemma ListCounts(meta: Meta)
    ensures NoCounts(ListProblems(meta))
  {
    hide NameList;
  }

  lemma FieldCounts(meta: Meta)
    ensures NoCounts(FieldProblems(meta))
  {
    hide ShapeProblems, ValueProblems, ListProblems;
    ShapeCounts(meta);
    ValueCounts(meta);
    ListCounts(meta);
  }

  lemma StatusCounts(place: Place, meta: Meta)
    ensures NoCounts(StatusProblems(place, meta))
  {
    hide DateShaped, Get;
  }

  lemma LinkCounts(w: World, tree: Tree, place: Place, meta: Meta)
    ensures NoCounts(LinkProblems(w, tree, place, meta))
  {
    hide IssueType, Get, GetList, TypeOf;
  }

  /** Only a ref counts lines. */
  lemma OnlyRefsCount(w: World, tree: Tree, path: Path, text: string, m: Problem)
    requires m in Problems(w, tree, path, text) && m.RefLinesOutside?
    ensures m in RefsProblems(w, tree, w.place(path).closed, Read(w, text).0)
  {
    hide LoadErrors, FieldProblems, StatusProblems, LinkProblems, RefsProblems, Read;
    LoadCounts(w, path, text);
    FieldCounts(Read(w, text).0);
    StatusCounts(w.place(path), Read(w, text).0);
    LinkCounts(w, tree, w.place(path), Read(w, text).0);
  }

  lemma RefCounts(w: World, tree: Tree, closed: bool, ref: Value, m: Problem)
    requires m in RefProblems(w, tree, closed, ref) && m.RefLinesOutside?
    ensures ref.Mapping? && |ref.entries| == 1 && ref.entries[0].0 == "file" && ref.entries[0].1.Str?
    ensures var r := w.fileRef(ref.entries[0].1.s); r.lines.Some? && r.rel == m.rel
  {
    hide IssueType, FileLines;
  }

  lemma RefsAreList(w: World, files: Tree, closed: bool, meta: Meta, m: Problem)
    requires m in RefsProblems(w, files, closed, meta) && m.RefLinesOutside?
    ensures "refs" in meta && meta["refs"].List?
    ensures exists ref :: ref in meta["refs"].items && m in RefProblems(w, files, closed, ref)
  {
    hide RefProblems;
  }

  lemma RefMessage(w: World, files: Tree, closed: bool, ref: Value, m: Problem)
    requires m.RefLinesOutside?
    ensures m in RefProblems(w, files, closed, ref) <==>
      && !closed && ref == Mapping([("file", Str(m.value))]) && Outside(w, files, m.value)
      && m.rel == w.fileRef(m.value).rel && Some(m.count) == Count(w, files, m.rel)
  {
    hide IssueType, FileLines;
    if m in RefProblems(w, files, closed, ref) {
      RefCounts(w, files, closed, ref, m);
      assert ref.entries == [("file", Str(m.value))];
    }
  }

  /** Exactly when an issue has a message about a line range. */
  lemma RangeMessage(w: World, files: Tree, path: Path, m: Problem)
    requires path in files && m.RefLinesOutside?
    ensures m in Messages(w, files, path) <==>
      && !w.place(path).closed && Names(w, files[path], m.value) && Outside(w, files, m.value)
      && m.rel == w.fileRef(m.value).rel && Some(m.count) == Count(w, files, m.rel)
  {
    hide Read, RefProblems, FieldProblems, StatusProblems, LinkProblems, LoadErrors, Outside, Count;
    var meta, closed := Read(w, files[path]).0, w.place(path).closed;
    RefMessage(w, files, closed, Mapping([("file", Str(m.value))]), m);
    if m in Messages(w, files, path) {
      OnlyRefsCount(w, files, path, files[path], m);
      RefsAreList(w, files, closed, meta, m);
      var ref :| ref in meta["refs"].items && m in RefProblems(w, files, closed, ref);
      RefMessage(w, files, closed, ref, m);
    } else if Names(w, files[path], m.value) {
      assert m in RefProblems(w, files, closed, Mapping([("file", Str(m.value))])) ==> m in RefsProblems(w, files, closed, meta);
    }
  }

  /** Every line range of the issue at `path` that an issue file is too short for, it had before, and the file had as
      many lines. */
  ghost predicate RangesKept(w: World, a: Tree, b: Tree, path: Path)
    requires path in a && path in b
  {
    forall value | Names(w, b[path], value) && Outside(w, b, value) && w.isIssue(w.fileRef(value).rel) ::
      && Names(w, a[path], value)
      && Count(w, a, w.fileRef(value).rel) == Count(w, b, w.fileRef(value).rel)
  }

  /** After any number of edits the messages of an issue only got fewer, if and only if it is closed or its line ranges
      into issue files are kept. */
  lemma MessagesOnlyShrink(w: World, a: Tree, b: Tree, path: Path)
    requires NoWorse(w, a, b) && path in b
    ensures path in a
    ensures Messages(w, b, path) <= Messages(w, a, path) <==> w.place(path).closed || RangesKept(w, a, b, path)
  {
    hide Messages, Names, Count;
    assert path in b.Keys;
    if w.place(path).closed || RangesKept(w, a, b, path) {
      forall m <- Messages(w, b, path) ensures m in Messages(w, a, path) {
        if CountsIssue(w, m) {
          RangeMessage(w, b, path, m);
          RangeMessage(w, a, path, m);
        }
      }
    } else {
      var value :| Names(w, b[path], value) && Outside(w, b, value) && w.isIssue(w.fileRef(value).rel)
        && !(Names(w, a[path], value) && Count(w, a, w.fileRef(value).rel) == Count(w, b, w.fileRef(value).rel));
      var rel := w.fileRef(value).rel;
      var m := RefLinesOutside(value, rel, Count(w, b, rel).value);
      RangeMessage(w, b, path, m);
      RangeMessage(w, a, path, m);
    }
  }

  /** What spares another issue from an edit of `path`: it is closed, the file keeps its number of lines, or every range
      the issue names in it fits the new number. */
  ghost predicate Spared(w: World, a: Tree, path: Path, text: string, other: Path)
    requires path in a && other in a
  {
    || w.place(other).closed
    || w.lineCount(text) == w.lineCount(a[path])
    || forall value | Names(w, a[other], value) && w.fileRef(value).rel == path :: Fits(w, value, w.lineCount(text))
  }

  lemma OtherMessage(w: World, a: Tree, path: Path, text: string, other: Path, m: Problem)
    requires path in a && other in a && other != path && m in Messages(w, a[path := text], other) && !CountsLines(m, path)
    ensures m in Messages(w, a, other)
  {
    hide Problems;
    OthersUnaffected(w, a, a[path := text], path, other, a[other], m);
  }

  /** An edit gives another issue no message if and only if it is spared. */
  lemma EditSpares(w: World, a: Tree, path: Path, text: string, other: Path)
    requires path in a && other in a && other != path
    ensures Messages(w, a[path := text], other) <= Messages(w, a, other) <==> Spared(w, a, path, text, other)
  {
    hide Names, Fits, Messages;
    var b := a[path := text];
    if Spared(w, a, path, text, other) {
      forall m <- Messages(w, b, other) ensures m in Messages(w, a, other) {
        if CountsLines(m, path) {
          RangeMessage(w, b, other, m);
          RangeMessage(w, a, other, m);
        } else {
          OtherMessage(w, a, path, text, other, m);
        }
      }
    } else {
      var value :| Names(w, a[other], value) && w.fileRef(value).rel == path && !Fits(w, value, w.lineCount(text));
      LineRefBreaks(w, a, path, text, other, value);
    }
  }

  /** An edit that changes the number of lines, up or down, gives a message to an open issue whose range in the edited
      file does not fit the new number. */
  lemma LineRefBreaks(w: World, a: Tree, path: Path, text: string, other: Path, value: string)
    requires path in a && other in a && other != path && !w.place(other).closed
    requires Names(w, a[other], value) && w.fileRef(value).rel == path
    requires !Fits(w, value, w.lineCount(text)) && w.lineCount(text) != w.lineCount(a[path])
    ensures var m := RefLinesOutside(value, path, w.lineCount(text));
      m in Messages(w, a[path := text], other) && m !in Messages(w, a, other)
  {
    hide Messages, Names, Fits;
    var m := RefLinesOutside(value, path, w.lineCount(text));
    RangeMessage(w, a[path := text], other, m);
    RangeMessage(w, a, other, m);
  }
}
