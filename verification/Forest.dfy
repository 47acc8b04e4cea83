/** The tree listing of issues: `cmd_list` of tools/issues/issues.py. */
module Forest {
  import opened Text

  /** A loaded issue; `parent` is the issue its `parent` field looks up to. Issues are named by their place in the
      workspace, which stands for the identity of the object. */
  datatype Issue = Issue(qid: string, kind: string, parent: Option<nat>)

  datatype Listing = Listing(issues: seq<Issue>, found: seq<nat>)

  predicate Distinct<T(==)>(s: seq<T>) {
    forall i, j | 0 <= i < j < |s| :: s[i] != s[j]
  }

  /** The issues that passed the filters, each once. */
  predicate Valid(l: Listing) {
    Distinct(l.found) && forall i | 0 <= i < |l.found| :: l.found[i] < |l.issues|
  }

  /** The listed issue that `x` is shown under. */
  function ParentOf(l: Listing, x: nat): (p: Option<nat>)
    ensures p.Some? ==> p.value in l.found && p.value != x
  {
    if x < |l.issues| && l.issues[x].parent.Some? && l.issues[x].parent.value in l.found && l.issues[x].parent.value != x
    then l.issues[x].parent
    else None
  }

  /** The issues of `s` shown under `p`, or at the top, in their order. */
  function Under(l: Listing, s: seq<nat>, p: Option<nat>): seq<nat>
  {
    if s == [] then []
    else if ParentOf(l, s[0]) == p then [s[0]] + Under(l, s[1..], p)
    else Under(l, s[1..], p)
  }

  lemma {:induction false} UnderMembers(l: Listing, s: seq<nat>, p: Option<nat>, x: nat)
    ensures x in Under(l, s, p) <==> x in s && ParentOf(l, x) == p
    decreases |s|
  {
    if s != [] {
      UnderMembers(l, s[1..], p, x);
      assert s == [s[0]] + s[1..];
    }
  }

  lemma {:induction false} UnderSnoc(l: Listing, s: seq<nat>, p: Option<nat>, x: nat)
    ensures Under(l, s + [x], p) == Under(l, s, p) + if ParentOf(l, x) == p then [x] else []
    decreases |s|
  {
    if s == [] {
      assert s + [x] == [x];
    } else {
      assert (s + [x])[1..] == s[1..] + [x];
      UnderSnoc(l, s[1..], p, x);
    }
  }

  predicate Precedes(s: seq<nat>, a: nat, b: nat) {
    exists i, j :: 0 <= i < j < |s| && s[i] == a && s[j] == b
  }

  lemma {:induction false} UnderOrder(l: Listing, s: seq<nat>, p: Option<nat>, i: nat, j: nat)
    requires i < j < |Under(l, s, p)|
    ensures Precedes(s, Under(l, s, p)[i], Under(l, s, p)[j])
    decreases |s|
  {
    var t := s[1..];
    var all := Under(l, s, p);
    var k := if ParentOf(l, s[0]) == p then 1 else 0;
    assert all[k..] == Under(l, t, p);
    if k == 1 && i == 0 {
      assert all[j] in Under(l, t, p);
      UnderMembers(l, t, p, all[j]);
      var m :| 0 <= m < |t| && t[m] == all[j];
      assert s[0] == all[0] && s[m + 1] == all[j];
    } else {
      UnderOrder(l, t, p, i - k, j - k);
      var a, b :| 0 <= a < b < |t| && t[a] == all[i] && t[b] == all[j];
      assert s[a + 1] == all[i] && s[b + 1] == all[j];
    }
  }

  lemma PrecedesOneWay(s: seq<nat>, a: nat, b: nat)
    requires Distinct(s) && Precedes(s, a, b)
    ensures a != b && !Precedes(s, b, a)
  {
  }

  // --- the grouping loop --------------------------------------------------------------------------

  function Listed(children: map<nat, seq<nat>>, p: nat): seq<nat> {
    if p in children then children[p] else []
  }

  method Group(l: Listing) returns (children: map<nat, seq<nat>>, roots: seq<nat>)
    requires Valid(l)
    ensures roots == Under(l, l.found, None)
    ensures forall p :: Listed(children, p) == Under(l, l.found, Some(p))
  {
    hide Under, Distinct;
    children, roots := map[], [];
    UnderNothing(l);
    assert l.found[..0] == [];
    for i := 0 to |l.found|
      invariant roots == Under(l, l.found[..i], None)
      invariant forall p :: Listed(children, p) == Under(l, l.found[..i], Some(p))
    {
      var x := l.found[i];
      assert l.found[..i + 1] == l.found[..i] + [x];
      forall p ensures Under(l, l.found[..i + 1], p) == Under(l, l.found[..i], p) + if ParentOf(l, x) == p then [x] else [] {
        UnderSnoc(l, l.found[..i], p, x);
      }
      var parent := l.issues[x].parent;
      if parent.Some? && parent.value in l.found && parent.value != x {
        children := children[parent.value := Listed(children, parent.value) + [x]];
      } else {
        roots := roots + [x];
      }
    }
    assert l.found[..|l.found|] == l.found;
  }

  lemma UnderNothing(l: Listing)
    ensures forall p :: Under(l, [], p) == []
  {
  }

  // --- chains from a root -------------------------------------------------------------------------

  function Bottom(q: seq<nat>): Option<nat> {
    if q == [] then None else Some(q[|q| - 1])
  }

  /** A chain from a root down to an issue. */
  predicate Chain(l: Listing, q: seq<nat>) {
    q == [] || (var n := |q| - 1; q[n] in l.found && ParentOf(l, q[n]) == Bottom(q[..n]) && Chain(l, q[..n]))
  }

  type Trail = q: seq<nat> | q != [] witness [0]

  function Last(q: Trail): nat {
    q[|q| - 1]
  }

  function Next(l: Listing, q: seq<nat>): seq<nat>
    requires Valid(l)
  {
    Under(l, l.found, Bottom(q))
  }

  lemma ChainSnoc(l: Listing, q: seq<nat>, x: nat)
    requires Valid(l) && Chain(l, q)
    ensures Chain(l, q + [x]) <==> x in Next(l, q)
  {
    hide Under, Distinct;
    UnderMembers(l, l.found, Bottom(q), x);
    assert (q + [x])[..|q|] == q;
  }

  lemma {:induction false} ChainPrefix(l: Listing, q: seq<nat>, n: nat)
    requires Chain(l, q) && n <= |q|
    ensures Chain(l, q[..n])
    decreases |q|
  {
    if n == |q| {
      assert q[..n] == q;
    } else {
      ChainPrefix(l, q[..|q| - 1], n);
      assert q[..|q| - 1][..n] == q[..n];
    }
  }

  lemma ChainAt(l: Listing, q: seq<nat>, i: nat)
    requires Chain(l, q) && i < |q|
    ensures q[i] in l.found && ParentOf(l, q[i]) == if i == 0 then None else Some(q[i - 1])
  {
    hide ParentOf;
    ChainPrefix(l, q, i + 1);
    assert q[..i + 1][..i] == q[..i];
    assert q[..i + 1][i] == q[i];
  }

  /** An issue has one chain at most. */
  lemma {:induction false} ChainUnique(l: Listing, a: Trail, b: Trail)
    requires Chain(l, a) && Chain(l, b) && Last(a) == Last(b)
    ensures a == b
    decreases |a|
  {
    hide ParentOf;
    var m, n := |a| - 1, |b| - 1;
    assert a == a[..m] + [Last(a)] && b == b[..n] + [Last(b)];
    if m > 0 {
      ChainUnique(l, a[..m], b[..n]);
    }
  }

  /** A chain never comes back to an issue, so walking down from a root ends. */
  lemma {:induction false} ChainDistinct(l: Listing, q: seq<nat>, i: nat, j: nat)
    requires Chain(l, q) && i < j < |q|
    ensures q[i] != q[j]
    decreases j
  {
    hide ParentOf, Chain;
    ChainAt(l, q, i);
    ChainAt(l, q, j);
    if i > 0 {
      ChainDistinct(l, q, i - 1, j - 1);
    }
  }

  lemma {:induction false} DistinctFits(q: seq<nat>, s: seq<nat>)
    requires Distinct(q) && forall x <- q :: x in s
    ensures |q| <= |s|
    decreases |q|
  {
    if q != [] {
      assert q[0] in q;
      var k :| 0 <= k < |s| && s[k] == q[0];
      var t := s[..k] + s[k + 1..];
      forall x <- q[1..] ensures x in t {
        assert x in q;
        var m :| 0 <= m < |s| && s[m] == x;
        assert m != k;
        assert if m < k then t[m] == x else t[m - 1] == x;
      }
      DistinctFits(q[1..], t);
    }
  }

  lemma ChainFits(l: Listing, q: seq<nat>)
    requires Valid(l) && Chain(l, q)
    ensures |q| <= |l.found|
  {
    forall i, j | 0 <= i < j < |q| ensures q[i] != q[j] {
      ChainDistinct(l, q, i, j);
    }
    forall x <- q ensures x in l.found {
      var i :| 0 <= i < |q| && q[i] == x;
      ChainAt(l, q, i);
    }
    DistinctFits(q, l.found);
  }

  // --- the walk -----------------------------------------------------------------------------------

  /** Whether every issue of `kids` goes on from the chain `q`. */
  predicate GoesOn(l: Listing, q: seq<nat>, kids: seq<nat>)
    requires Valid(l)
  {
    Chain(l, q) && forall x <- kids :: x in Next(l, q)
  }

  /** What `visit` lists for the issue at the end of `q`: the chains it walks, in order. */
  function Tree(l: Listing, q: Trail): seq<Trail>
    requires Valid(l) && Chain(l, q)
    decreases |l.found| - |q|, 1, 0
  {
    ChainFits(l, q);
    [q] + Trees(l, q, Next(l, q))
  }

  function Trees(l: Listing, q: seq<nat>, kids: seq<nat>): seq<Trail>
    requires Valid(l) && GoesOn(l, q, kids)
    decreases |l.found| - |q|, 0, |kids|
  {
    if kids == [] then []
    else
      assert kids[0] in kids;
      ChainSnoc(l, q, kids[0]);
      ChainFits(l, q + [kids[0]]);
      Tree(l, q + [kids[0]]) + Trees(l, q, kids[1..])
  }

  function AllRows(l: Listing): seq<Trail>
    requires Valid(l)
  {
    Trees(l, [], Next(l, []))
  }

  function Indent(depth: nat): string {
    seq(2 * depth, i => ' ')
  }

  function Label(l: Listing, q: Trail): (string, nat) {
    (Indent(|q| - 1) + (if Last(q) < |l.issues| then l.issues[Last(q)].qid else ""), Last(q))
  }

  /** A row's label is two spaces for every issue above it, and the issue's name. */
  lemma LabelIs(l: Listing, q: Trail)
    requires Last(q) < |l.issues|
    ensures var (text, issue) := Label(l, q);
      && issue == q[|q| - 1] && |text| == 2 * (|q| - 1) + |l.issues[issue].qid|
      && (forall i | 0 <= i < 2 * (|q| - 1) :: text[i] == ' ')
      && text[2 * (|q| - 1)..] == l.issues[issue].qid
  {
  }

  function Labels(l: Listing, rows: seq<Trail>): seq<(string, nat)> {
    seq(|rows|, i requires 0 <= i < |rows| => Label(l, rows[i]))
  }

  lemma LabelsConcat(l: Listing, a: seq<Trail>, b: seq<Trail>)
    ensures Labels(l, a + b) == Labels(l, a) + Labels(l, b)
  {
  }

  lemma TreesStep(l: Listing, q: seq<nat>, kids: seq<nat>)
    requires Valid(l) && GoesOn(l, q, kids) && kids != []
    ensures Chain(l, q + [kids[0]]) && GoesOn(l, q, kids[1..]) && |q| < |l.found|
    ensures Trees(l, q, kids) == Tree(l, q + [kids[0]]) + Trees(l, q, kids[1..])
  {
    hide Under, Valid, Chain, Tree;
    assert kids[0] in kids;
    ChainSnoc(l, q, kids[0]);
    ChainFits(l, q + [kids[0]]);
  }

  /** The nested function `visit`; `q` is the chain of calls it stands at the end of. */
  method Visit(l: Listing, children: map<nat, seq<nat>>, issue: nat, depth: nat, rows: seq<(string, nat)>, ghost q: Trail)
    returns (r: seq<(string, nat)>)
    requires Valid(l) && Chain(l, q) && Last(q) == issue && depth == |q| - 1
    requires forall p :: Listed(children, p) == Under(l, l.found, Some(p))
    ensures r == rows + Labels(l, Tree(l, q))
    decreases |l.found| - |q|
  {
    hide Under, Labels, Valid, Chain, Trees, Listed;
    ValidIssue(l, issue, q);
    r := rows + [(Indent(depth) + l.issues[issue].qid, issue)];
    var kids := Listed(children, issue);
    assert kids == Next(l, q);
    assert Tree(l, q) == [q] + Trees(l, q, kids);
    LabelsConcat(l, [q], Trees(l, q, kids));
    LabelOne(l, q);
    hide Tree;
    assert kids[0..] == kids;
    for i := 0 to |kids|
      invariant GoesOn(l, q, kids[i..])
      invariant r + Labels(l, Trees(l, q, kids[i..])) == rows + Labels(l, Tree(l, q))
    {
      assert kids[i..][1..] == kids[i + 1..] && kids[i..][0] == kids[i];
      TreesStep(l, q, kids[i..]);
      LabelsConcat(l, Tree(l, q + [kids[i]]), Trees(l, q, kids[i + 1..]));
      r := Visit(l, children, kids[i], depth + 1, r, q + [kids[i]]);
    }
    assert kids[|kids|..] == [];
    NoTrees(l, q);
    NoLabels(l);
  }

  lemma NoTrees(l: Listing, q: seq<nat>)
    requires Valid(l) && Chain(l, q)
    ensures Trees(l, q, []) == []
  {
  }

  lemma NoLabels(l: Listing)
    ensures Labels(l, []) == []
  {
  }

  lemma LabelOne(l: Listing, q: Trail)
    ensures Labels(l, [q]) == [Label(l, q)]
  {
  }

  lemma ValidIssue(l: Listing, x: nat, q: Trail)
    requires Valid(l) && Chain(l, q) && Last(q) == x
    ensures x < |l.issues|
  {
  }

  /** The rows of the listing. */
  method List(l: Listing) returns (rows: seq<(string, nat)>)
    requires Valid(l)
    ensures rows == Labels(l, AllRows(l))
  {
    hide Under, Labels, Valid, Trees, Tree, Listed;
    var children, roots := Group(l);
    rows := [];
    assert Chain(l, []);
    assert roots[0..] == roots;
    for i := 0 to |roots|
      invariant GoesOn(l, [], roots[i..])
      invariant rows + Labels(l, Trees(l, [], roots[i..])) == Labels(l, AllRows(l))
    {
      assert roots[i..][1..] == roots[i + 1..] && roots[i..][0] == roots[i];
      TreesStep(l, [], roots[i..]);
      assert [] + [roots[i]] == [roots[i]];
      LabelsConcat(l, Tree(l, [roots[i]]), Trees(l, [], roots[i + 1..]));
      rows := Visit(l, children, roots[i], 0, rows, [roots[i]]);
    }
    assert roots[|roots|..] == [];
    NoTrees(l, []);
    NoLabels(l);
  }

  // --- what is listed -----------------------------------------------------------------------------

  lemma {:induction false} TreesSound(l: Listing, q: seq<nat>, kids: seq<nat>, r: Trail)
    requires Valid(l) && GoesOn(l, q, kids) && r in Trees(l, q, kids)
    ensures Chain(l, r) && |q| < |r| && q == r[..|q|] && r[|q|] in kids
    decreases |l.found| - |q|, |kids|
  {
    hide Under, Valid, Chain;
    if kids != [] {
      var x := kids[0];
      assert x in kids;
      ChainSnoc(l, q, x);
      ChainFits(l, q + [x]);
      var sub := q + [x];
      if r in Trees(l, q, kids[1..]) {
        TreesSound(l, q, kids[1..], r);
      } else if r != sub {
        TreesSound(l, sub, Next(l, sub), r);
        assert q == sub[..|q|];
      }
    }
  }

  lemma {:induction false} TreesComplete(l: Listing, q: seq<nat>, kids: seq<nat>, r: Trail)
    requires Valid(l) && GoesOn(l, q, kids) && Chain(l, r)
    requires |q| < |r| && q == r[..|q|] && r[|q|] in kids
    ensures r in Trees(l, q, kids)
    decreases |l.found| - |q|, |kids|
  {
    hide Under, Valid, Chain;
    var x := kids[0];
    assert x in kids;
    ChainSnoc(l, q, x);
    ChainFits(l, q + [x]);
    var sub := q + [x];
    if r[|q|] != x {
      TreesComplete(l, q, kids[1..], r);
    } else {
      assert r[..|sub|] == sub;
      if r != sub {
        ChainPrefix(l, r, |sub| + 1);
        assert r[..|sub| + 1] == sub + [r[|sub|]];
        ChainSnoc(l, sub, r[|sub|]);
        TreesComplete(l, sub, Next(l, sub), r);
      }
    }
  }

  /** The rows are exactly the chains from a root. */
  lemma ListedIffChain(l: Listing, r: Trail)
    requires Valid(l)
    ensures r in AllRows(l) <==> Chain(l, r)
  {
    hide Under, Valid, Trees;
    assert Chain(l, []);
    if r in AllRows(l) {
      TreesSound(l, [], Next(l, []), r);
    } else if Chain(l, r) {
      ChainPrefix(l, r, 1);
      assert r[..1] == [] + [r[0]];
      ChainSnoc(l, [], r[0]);
      TreesComplete(l, [], Next(l, []), r);
    }
  }

  /** Parents in front of their children, and siblings in the order of the sorted list. */
  predicate Before(l: Listing, p: seq<nat>, q: seq<nat>) {
    || (|p| < |q| && p == q[..|p|])
    || (exists d :: 0 <= d < |p| && d < |q| && p[..d] == q[..d] && Precedes(l.found, p[d], q[d]))
  }

  lemma {:induction false} TreesOrder(l: Listing, q: seq<nat>, kids: seq<nat>, i: nat, j: nat)
    requires Valid(l) && GoesOn(l, q, kids) && i < j < |Trees(l, q, kids)|
    requires forall a, b | 0 <= a < b < |kids| :: Precedes(l.found, kids[a], kids[b])
    ensures Before(l, Trees(l, q, kids)[i], Trees(l, q, kids)[j])
    decreases |l.found| - |q|, |kids|
  {
    hide Under, Valid, Chain, Before, Precedes;
    var x := kids[0];
    assert x in kids;
    ChainSnoc(l, q, x);
    ChainFits(l, q + [x]);
    var sub := q + [x];
    var first, others := Tree(l, sub), Trees(l, q, kids[1..]);
    var all := Trees(l, q, kids);
    assert all == first + others;
    if i >= |first| {
      assert all[i] == others[i - |first|] && all[j] == others[j - |first|];
      TreesOrder(l, q, kids[1..], i - |first|, j - |first|);
    } else if j >= |first| {
      assert all[i] in first && all[j] in others;
      TreesSound(l, q, kids[1..], all[j]);
      TreeSound(l, sub, all[i]);
      SiblingsOrder(l, q, kids, all[i], all[j]);
    } else if i > 0 {
      var below := Trees(l, sub, Next(l, sub));
      assert first == [sub] + below;
      assert all[i] == below[i - 1] && all[j] == below[j - 1];
      NextOrder(l, sub);
      TreesOrder(l, sub, Next(l, sub), i - 1, j - 1);
    } else {
      var below := Trees(l, sub, Next(l, sub));
      assert first == [sub] + below;
      assert all[j] == below[j - 1];
      TreesSound(l, sub, Next(l, sub), all[j]);
      PrefixBefore(l, sub, all[j]);
    }
  }

  lemma PrefixBefore(l: Listing, p: seq<nat>, q: seq<nat>)
    requires |p| < |q| && p == q[..|p|]
    ensures Before(l, p, q)
  {
  }

  lemma TreeSound(l: Listing, q: Trail, r: Trail)
    requires Valid(l) && Chain(l, q) && r in Tree(l, q)
    ensures |q| <= |r| && r[..|q|] == q
  {
    hide Under, Valid, Chain;
    if r != q {
      TreesSound(l, q, Next(l, q), r);
    }
  }

  lemma SiblingsOrder(l: Listing, q: seq<nat>, kids: seq<nat>, a: Trail, b: Trail)
    requires kids != [] && |q| < |a| && a[..|q| + 1] == q + [kids[0]]
    requires |q| < |b| && b[..|q|] == q && b[|q|] in kids[1..]
    requires forall i, j | 0 <= i < j < |kids| :: Precedes(l.found, kids[i], kids[j])
    ensures Before(l, a, b)
  {
    hide Precedes;
    var rest := kids[1..];
    var m :| 0 <= m < |rest| && rest[m] == b[|q|];
    assert b[|q|] == kids[m + 1];
    assert a[|q|] == a[..|q| + 1][|q|] == kids[0];
    assert a[..|q|] == a[..|q| + 1][..|q|] == q;
  }

  lemma NextOrder(l: Listing, q: seq<nat>)
    requires Valid(l)
    ensures forall a, b | 0 <= a < b < |Next(l, q)| :: Precedes(l.found, Next(l, q)[a], Next(l, q)[b])
  {
    hide Under, Precedes;
    forall a, b | 0 <= a < b < |Next(l, q)| ensures Precedes(l.found, Next(l, q)[a], Next(l, q)[b]) {
      UnderOrder(l, l.found, Bottom(q), a, b);
    }
  }

  /** The rows stand in tree order. */
  lemma RowsInOrder(l: Listing, i: nat, j: nat)
    requires Valid(l) && i < j < |AllRows(l)|
    ensures Before(l, AllRows(l)[i], AllRows(l)[j])
  {
    hide Under, Before, Precedes, Trees;
    assert Chain(l, []);
    NextOrder(l, []);
    TreesOrder(l, [], Next(l, []), i, j);
  }

  lemma NotBeforeItself(l: Listing, p: seq<nat>)
    requires Valid(l)
    ensures !Before(l, p, p)
  {
    hide Precedes;
    forall d | 0 <= d < |p| ensures !Precedes(l.found, p[d], p[d]) {
      if Precedes(l.found, p[d], p[d]) {
        PrecedesOneWay(l.found, p[d], p[d]);
      }
    }
  }

  lemma {:induction false} RowsDistinct(l: Listing, i: nat, j: nat)
    requires Valid(l) && i < j < |AllRows(l)|
    ensures Last(AllRows(l)[i]) != Last(AllRows(l)[j])
  {
    hide Under, Before, AllRows, Chain, Valid;
    var rows := AllRows(l);
    RowsInOrder(l, i, j);
    NotBeforeItself(l, rows[i]);
    ListedIffChain(l, rows[i]);
    ListedIffChain(l, rows[j]);
    if Last(rows[i]) == Last(rows[j]) {
      ChainUnique(l, rows[i], rows[j]);
    }
  }

  /** What lies between a row and its child belongs to that row. */
  lemma BetweenParentAndChild(l: Listing, p: seq<nat>, r: seq<nat>, x: nat)
    requires Valid(l) && Before(l, p, r) && Before(l, r, p + [x])
    ensures |p| < |r| && r[..|p|] == p
  {
    hide Precedes;
    var q := p + [x];
    if !(|p| < |r| && p == r[..|p|]) {
      var d :| 0 <= d < |p| && d < |r| && p[..d] == r[..d] && Precedes(l.found, p[d], r[d]);
      assert q[d] == p[d] && q[..d] == p[..d];
      PrecedesOneWay(l.found, p[d], r[d]);
      if !(|r| < |q| && r == q[..|r|]) {
        var e :| 0 <= e < |r| && e < |q| && r[..e] == q[..e] && Precedes(l.found, r[e], q[e]);
        PrecedesOneWay(l.found, r[e], q[e]);
        FirstDifference(r, q, d, e);
      }
    }
  }

  lemma FirstDifference(r: seq<nat>, q: seq<nat>, d: nat, e: nat)
    requires d < |r| && d < |q| && r[..d] == q[..d] && r[d] != q[d]
    requires e < |r| && e < |q| && r[..e] == q[..e] && r[e] != q[e]
    ensures d == e
  {
    assert forall k | 0 <= k < e :: r[..e][k] == r[k] && q[..e][k] == q[k];
    assert forall k | 0 <= k < d :: r[..d][k] == r[k] && q[..d][k] == q[k];
  }

  lemma PrefixNotBehind(l: Listing, p: seq<nat>, q: seq<nat>)
    requires Valid(l) && |p| < |q| && p == q[..|p|]
    ensures !Before(l, q, p)
  {
    hide Precedes;
    forall d | 0 <= d < |p| ensures q[d] == p[d] && !Precedes(l.found, q[d], p[d]) {
      if Precedes(l.found, q[d], q[d]) {
        PrecedesOneWay(l.found, q[d], q[d]);
      }
    }
  }

  /** A row below another stands behind it, with nothing between them but rows that are also below it. */
  lemma ChildUnderParent(l: Listing, k: nat) returns (j: nat)
    requires Valid(l) && k < |AllRows(l)| && |AllRows(l)[k]| > 1
    ensures j < k && ParentOf(l, Last(AllRows(l)[k])) == Some(Last(AllRows(l)[j]))
    ensures |AllRows(l)[j]| == |AllRows(l)[k]| - 1
    ensures forall m | j < m < k :: |AllRows(l)[m]| > |AllRows(l)[j]| && AllRows(l)[m][..|AllRows(l)[j]|] == AllRows(l)[j]
  {
    hide Under, Before, AllRows, Valid;
    var rows := AllRows(l);
    var q := rows[k];
    ListedIffChain(l, q);
    var p: Trail := q[..|q| - 1];
    ChainPrefix(l, q, |q| - 1);
    ListedIffChain(l, p);
    j :| 0 <= j < |rows| && rows[j] == p;
    assert q == p + [Last(q)];
    PrefixBefore(l, p, q);
    if j > k {
      RowsInOrder(l, k, j);
      PrefixNotBehind(l, p, q);
    }
    forall m | j < m < k ensures |rows[m]| > |p| && rows[m][..|p|] == p {
      RowsInOrder(l, j, m);
      RowsInOrder(l, m, k);
      BetweenParentAndChild(l, p, rows[m], Last(q));
    }
  }

  // --- what is left out ---------------------------------------------------------------------------

  /** Listed issues that are each the parent of the next, and the last of the first. */
  predicate Loop(l: Listing, c: seq<nat>)
    requires Valid(l)
  {
    && c != []
    && (forall k | 0 <= k < |c| :: c[k] in l.found)
    && (forall k | 0 <= k < |c| :: ParentOf(l, c[k]) == Some(c[if k == 0 then |c| - 1 else k - 1]))
  }

  /** `x` is shown in some row. */
  ghost predicate Shown(l: Listing, x: nat)
    requires Valid(l)
  {
    exists q: Trail :: q in AllRows(l) && Last(q) == x
  }

  /** No chain ends in a loop: going up from one of its issues stays in it. */
  lemma {:induction false} LoopHasNoChain(l: Listing, c: seq<nat>, q: Trail)
    requires Valid(l) && Loop(l, c) && Chain(l, q)
    ensures Last(q) !in c
    decreases |q|
  {
    if Last(q) in c {
      var k :| 0 <= k < |c| && c[k] == Last(q);
      assert ParentOf(l, c[k]) == Some(c[if k == 0 then |c| - 1 else k - 1]);
      LoopHasNoChain(l, c, q[..|q| - 1]);
    }
  }

  /** Issues that are each the parent of the next, whatever the first one's parent is. */
  predicate Upward(l: Listing, t: seq<nat>)
    requires Valid(l)
  {
    && (forall k | 0 <= k < |t| :: t[k] in l.found)
    && (forall k | 0 < k < |t| :: ParentOf(l, t[k]) == Some(t[k - 1]))
  }

  /** Climbing from an issue ends at a root or in a loop. */
  lemma {:induction false} Climb(l: Listing, t: Trail) returns (q: Trail, c: seq<nat>)
    requires Valid(l) && Upward(l, t) && Distinct(t)
    ensures Loop(l, c) || (Chain(l, q) && Last(q) == Last(t))
    decreases |l.found| - |t|
  {
    q, c := t, [];
    var up := ParentOf(l, t[0]);
    if up.Some? {
      var p := up.value;
      if p in t {
        var k :| 0 <= k < |t| && t[k] == p;
        c := t[..k + 1];
        LoopFound(l, t, k);
      } else {
        UpwardGrows(l, t, p);
        q, c := Climb(l, [p] + t);
      }
    } else {
      RootedIsChain(l, t);
    }
  }

  lemma {:induction false} RootedIsChain(l: Listing, t: seq<nat>)
    requires Valid(l) && Upward(l, t) && (t != [] ==> ParentOf(l, t[0]) == None)
    ensures Chain(l, t)
    decreases |t|
  {
    hide Distinct;
    if t != [] {
      var n := |t| - 1;
      var init := t[..n];
      assert forall k | 0 < k < n :: ParentOf(l, init[k]) == ParentOf(l, t[k]);
      RootedIsChain(l, init);
      assert ParentOf(l, t[n]) == Bottom(init);
    }
  }

  lemma LoopFound(l: Listing, t: Trail, k: nat)
    requires Valid(l) && Upward(l, t) && k < |t| && ParentOf(l, t[0]) == Some(t[k])
    ensures Loop(l, t[..k + 1])
  {
    hide Distinct;
    var c := t[..k + 1];
    forall i | 0 <= i < |c| ensures ParentOf(l, c[i]) == Some(c[if i == 0 then |c| - 1 else i - 1]) {
      if i > 0 {
        assert ParentOf(l, t[i]) == Some(t[i - 1]);
      }
    }
  }

  lemma UpwardGrows(l: Listing, t: Trail, p: nat)
    requires Valid(l) && Upward(l, t) && Distinct(t) && ParentOf(l, t[0]) == Some(p) && p !in t
    ensures Upward(l, [p] + t) && Distinct([p] + t) && |t| < |l.found|
  {
    var s := [p] + t;
    assert forall k | 0 < k < |s| :: s[k] == t[k - 1];
    DistinctFits(s, l.found);
  }

  /** Every listed issue has a row if and only if no parents of listed issues go round in a loop. */
  lemma AllShownIffNoLoop(l: Listing)
    requires Valid(l)
    ensures (forall x <- l.found :: Shown(l, x)) <==> !(exists c :: Loop(l, c))
  {
    hide AllRows, Chain, Distinct;
    if exists c :: Loop(l, c) {
      var c :| Loop(l, c);
      assert c[0] in l.found;
      forall q: Trail | q in AllRows(l) ensures Last(q) != c[0] {
        ListedIffChain(l, q);
        LoopHasNoChain(l, c, q);
      }
      assert !Shown(l, c[0]);
    } else {
      forall x <- l.found ensures Shown(l, x) {
        SingleIsUpward(l, x);
        var q, c := Climb(l, [x]);
        ListedIffChain(l, q);
      }
    }
  }

  lemma SingleIsUpward(l: Listing, x: nat)
    requires Valid(l) && x in l.found
    ensures Upward(l, [x]) && Distinct([x])
  {
  }

  /** The parent rules of `check` on the listed issues: a parent is an epic, and an epic has no parent. */
  predicate ParentRules(l: Listing)
    requires Valid(l)
  {
    forall x <- l.found | l.issues[x].parent.Some? ::
      l.issues[x].kind != "epic"
      && (l.issues[x].parent.value < |l.issues| ==> l.issues[l.issues[x].parent.value].kind == "epic")
  }

  lemma LoopEnds(l: Listing, c: seq<nat>) returns (x: nat, p: nat)
    requires Valid(l) && Loop(l, c)
    ensures x in l.found && p in l.found && ParentOf(l, x) == Some(p) && ParentOf(l, p).Some?
  {
    x, p := c[0], c[|c| - 1];
    var n := |c| - 1;
    assert ParentOf(l, c[0]) == Some(c[if 0 == 0 then n else 0 - 1]);
    assert ParentOf(l, c[n]) == Some(c[if n == 0 then n else n - 1]);
  }

  lemma RulesForbidLoops(l: Listing, c: seq<nat>)
    requires Valid(l) && ParentRules(l)
    ensures !Loop(l, c)
  {
    if Loop(l, c) {
      var x, p := LoopEnds(l, c);
    }
  }

  lemma ThirdLevel(l: Listing, q: Trail)
    requires Valid(l) && Chain(l, q) && |q| > 2
    ensures q[1] in l.found && q[2] in l.found
    ensures ParentOf(l, q[1]) == Some(q[0]) && ParentOf(l, q[2]) == Some(q[1])
  {
    ChainAt(l, q, 1);
    ChainAt(l, q, 2);
  }

  function Issues(rows: seq<Trail>): seq<nat> {
    seq(|rows|, i requires 0 <= i < |rows| => Last(rows[i]))
  }

  lemma {:induction false} DistinctCount(s: seq<nat>, x: nat)
    requires Distinct(s)
    ensures multiset(s)[x] == if x in s then 1 else 0
    decreases |s|
  {
    if s != [] {
      DistinctCount(s[1..], x);
      assert s == [s[0]] + s[1..];
    }
  }

  lemma ShownInIssues(l: Listing, x: nat)
    requires Valid(l)
    ensures x in Issues(AllRows(l)) <==> Shown(l, x)
  {
    hide AllRows, Valid;
    var rows := AllRows(l);
    if x in Issues(rows) {
      var i :| 0 <= i < |rows| && Issues(rows)[i] == x;
      assert rows[i] in rows;
    }
    if Shown(l, x) {
      var q: Trail :| q in rows && Last(q) == x;
      var i :| 0 <= i < |rows| && rows[i] == q;
      assert Issues(rows)[i] == x;
    }
  }

  /** The rows are the found issues, each once, if and only if their parents do not go round in a loop. */
  lemma PermutationIffNoLoop(l: Listing)
    requires Valid(l)
    ensures multiset(Issues(AllRows(l))) == multiset(l.found) <==> !(exists c :: Loop(l, c))
  {
    hide AllRows, Loop, Chain;
    var issues := Issues(AllRows(l));
    AllShownIffNoLoop(l);
    assert Distinct(issues) by {
      forall i, j | 0 <= i < j < |issues| ensures issues[i] != issues[j] {
        RowsDistinct(l, i, j);
      }
    }
    forall x: nat ensures x in issues <==> Shown(l, x) {
      ShownInIssues(l, x);
    }
    forall x: nat | Shown(l, x) ensures x in l.found {
      ShownIsFound(l, x);
    }
    forall x: nat
      ensures multiset(issues)[x] == if x in issues then 1 else 0
      ensures multiset(l.found)[x] == if x in l.found then 1 else 0
    {
      DistinctCount(issues, x);
      DistinctCount(l.found, x);
    }
    hide Distinct, Shown;
    if multiset(issues) == multiset(l.found) {
      forall x <- l.found ensures Shown(l, x) {
        assert x in multiset(l.found);
      }
    }
  }

  lemma ShownIsFound(l: Listing, x: nat)
    requires Valid(l) && Shown(l, x)
    ensures x in l.found
  {
    hide AllRows, Valid;
    var q: Trail :| q in AllRows(l) && Last(q) == x;
    ListedIffChain(l, q);
  }

  /** Under the parent rules of `check` the listing is a permutation of the found issues, at most two levels deep. */
  lemma RulesListEverything(l: Listing)
    requires Valid(l) && ParentRules(l)
    ensures multiset(Issues(AllRows(l))) == multiset(l.found)
    ensures forall q <- AllRows(l) :: |q| <= 2
  {
    hide AllRows, Loop, Distinct;
    PermutationIffNoLoop(l);
    forall c ensures !Loop(l, c) {
      RulesForbidLoops(l, c);
    }
    forall q <- AllRows(l) ensures |q| <= 2 {
      ListedIffChain(l, q);
      if |q| > 2 {
        ThirdLevel(l, q);
      }
    }
  }

  /** Two issues that name each other as parent are silently left out. */
  lemma LoopIsDropped()
    ensures var l := Listing([Issue("task-a", "task", Some(1)), Issue("task-b", "task", Some(0))], [0, 1]);
      Valid(l) && AllRows(l) == []
  {
    var l := Listing([Issue("task-a", "task", Some(1)), Issue("task-b", "task", Some(0))], [0, 1]);
    assert Under(l, [1], None) == [] by { assert [1][1..] == []; }
    assert [0, 1][1..] == [1];
    assert Next(l, []) == [];
  }

  /** An issue without a parent, with one that is not listed, or that names itself, is listed at the top. */
  lemma TopIssueIsListed(l: Listing, x: nat)
    requires Valid(l) && x in l.found
    requires l.issues[x].parent.None? || l.issues[x].parent.value !in l.found || l.issues[x].parent.value == x
    ensures [x] in AllRows(l)
  {
    hide AllRows;
    assert [x][..0] == [];
    assert Chain(l, []);
    ListedIffChain(l, [x]);
  }

  /** Below a parent that is listed at the top, an issue is listed one level down. */
  lemma ChildIsListed(l: Listing, x: nat, p: nat)
    requires Valid(l) && x in l.found && p in l.found && x != p && l.issues[x].parent == Some(p) && [p] in AllRows(l)
    ensures [p, x] in AllRows(l)
  {
    hide AllRows;
    assert [p, x][..1] == [p];
    ListedIffChain(l, [p]);
    ListedIffChain(l, [p, x]);
  }
}
