/** Relative markdown links: `_rewrite_links` of tools/issues/issues.py, the paths it computes with and the links it
    finds. */
module Links {
  import opened Text

  // --- paths --------------------------------------------------------------------------------------

  /** An absolute path: its components from the root. */
  type Path = seq<string>

  /** `s.split("/")` */
  function Components(s: string): (cs: seq<string>)
    ensures cs != []
  {
    if s == "" then [""]
    else
      var tail := Components(s[1..]);
      if s[0] == '/' then [""] + tail else [[s[0]] + tail[0]] + tail[1..]
  }

  /** `"/".join(cs)` */
  function Slashed(cs: seq<string>): string {
    if cs == [] then "" else if |cs| == 1 then cs[0] else cs[0] + "/" + Slashed(cs[1..])
  }

  predicate NoSlash(cs: seq<string>) {
    forall i | 0 <= i < |cs| :: '/' !in cs[i]
  }

  lemma {:induction false} ComponentsPrepend(c: string, rest: string)
    requires '/' !in c
    ensures Components(c + "/" + rest) == [c] + Components(rest)
  {
    var s := c + "/" + rest;
    if c == "" {
      assert s[1..] == rest;
    } else {
      ComponentsPrepend(c[1..], rest);
      assert s[1..] == c[1..] + "/" + rest;
      assert c == [c[0]] + c[1..];
    }
  }

  lemma {:induction false} ComponentsOne(c: string)
    requires '/' !in c
    ensures Components(c) == [c]
  {
    if c != "" {
      ComponentsOne(c[1..]);
      assert c == [c[0]] + c[1..];
    }
  }

  lemma {:induction false} ComponentsSlashed(cs: seq<string>)
    requires cs != [] && NoSlash(cs)
    ensures Components(Slashed(cs)) == cs
  {
    if |cs| == 1 {
      ComponentsOne(cs[0]);
    } else {
      ComponentsSlashed(cs[1..]);
      ComponentsPrepend(cs[0], Slashed(cs[1..]));
    }
  }

  /** Follows components from a directory; `..` above the root stays there. */
  function Walk(dir: Path, cs: seq<string>): Path
    decreases |cs|
  {
    if cs == [] then dir
    else if cs[0] == "" || cs[0] == "." then Walk(dir, cs[1..])
    else if cs[0] == ".." then Walk(if dir == [] then [] else dir[..|dir| - 1], cs[1..])
    else Walk(dir + [cs[0]], cs[1..])
  }

  /** `(dir / target).resolve()` */
  function Resolve(dir: Path, target: string): Path {
    Walk(dir, Components(target))
  }

  function Common(p: Path, d: Path): (n: nat)
    ensures n <= |p| && n <= |d| && p[..n] == d[..n]
  {
    if p == [] || d == [] || p[0] != d[0] then 0
    else
      var n := Common(p[1..], d[1..]);
      assert p[..n + 1] == [p[0]] + p[1..][..n] && d[..n + 1] == [d[0]] + d[1..][..n];
      n + 1
  }

  function Ups(n: nat): seq<string> {
    if n == 0 then [] else [".."] + Ups(n - 1)
  }

  /** `ups` steps up, then the names of `rest`; staying is a step, too. */
  function Route(ups: nat, rest: Path): seq<string> {
    var cs := Ups(ups) + rest;
    if cs == [] then ["."] else cs
  }

  function RelativeTo(p: Path, d: Path): seq<string> {
    var n := Common(p, d);
    Route(|d| - n, p[n..])
  }

  /** `os.path.relpath(p, d)` in posix form */
  function Relpath(p: Path, d: Path): string {
    Slashed(RelativeTo(p, d))
  }

  /** What a component of a resolved path always is: a name, not a step. */
  predicate Named(c: string) {
    c != "" && c != "." && c != ".." && '/' !in c
  }

  predicate AllNamed(p: Path) {
    forall i | 0 <= i < |p| :: Named(p[i])
  }

  lemma {:induction false} ComponentsNoSlash(s: string)
    ensures NoSlash(Components(s))
  {
    if s != "" {
      ComponentsNoSlash(s[1..]);
    }
  }

  lemma {:induction false} WalkNamed(dir: Path, cs: seq<string>)
    requires AllNamed(dir) && NoSlash(cs)
    ensures AllNamed(Walk(dir, cs))
    decreases |cs|
  {
    if cs != [] {
      if cs[0] == "" || cs[0] == "." {
        WalkNamed(dir, cs[1..]);
      } else if cs[0] == ".." {
        WalkNamed(if dir == [] then [] else dir[..|dir| - 1], cs[1..]);
      } else {
        WalkNamed(dir + [cs[0]], cs[1..]);
      }
    }
  }

  /** Whatever a link says, it resolves to a path of names. */
  lemma ResolveNamed(dir: Path, target: string)
    requires AllNamed(dir)
    ensures AllNamed(Resolve(dir, target))
  {
    ComponentsNoSlash(target);
    WalkNamed(dir, Components(target));
  }

  lemma {:induction false} WalkUps(d: Path, n: nat, cs: seq<string>)
    requires n <= |d|
    ensures Walk(d, Ups(n) + cs) == Walk(d[..|d| - n], cs)
  {
    if n == 0 {
      assert Ups(0) + cs == cs && d[..|d|] == d;
    } else {
      assert (Ups(n) + cs)[1..] == Ups(n - 1) + cs;
      WalkUps(d[..|d| - 1], n - 1, cs);
      assert d[..|d| - 1][..|d| - n] == d[..|d| - n];
    }
  }

  lemma {:induction false} WalkDown(d: Path, p: Path)
    requires AllNamed(p)
    ensures Walk(d, p) == d + p
    decreases |p|
  {
    if p == [] {
      assert d + p == d;
    } else {
      WalkDown(d + [p[0]], p[1..]);
      assert d + [p[0]] + p[1..] == d + p;
    }
  }

  lemma {:induction false} UpsNoSlash(n: nat)
    ensures NoSlash(Ups(n)) && |Ups(n)| == n
  {
    if n > 0 {
      UpsNoSlash(n - 1);
    }
  }

  lemma RelativeNoSlash(p: Path, d: Path)
    requires AllNamed(p)
    ensures NoSlash(RelativeTo(p, d)) && RelativeTo(p, d) != []
  {
    hide Common, Ups, Named;
    var n := Common(p, d);
    UpsNoSlash(|d| - n);
    NamedNoSlash(p, n);
    assert '/' !in ".";
  }

  lemma NamedNoSlash(p: Path, n: nat)
    requires AllNamed(p) && n <= |p|
    ensures NoSlash(p[n..])
  {
  }

  /** A relative path leads to where it was computed for. */
  lemma RelpathResolves(p: Path, d: Path)
    requires AllNamed(p)
    ensures Resolve(d, Relpath(p, d)) == p
  {
    hide Named, Walk, Ups, Common;
    RelativeNoSlash(p, d);
    ComponentsSlashed(RelativeTo(p, d));
    var n := Common(p, d);
    WalkUps(d, |d| - n, p[n..]);
    WalkDown(d[..n], p[n..]);
    assert p == p[..n] + p[n..];
    if Ups(|d| - n) + p[n..] == [] {
      UpsNoSlash(|d| - n);
      WalkDot(d);
      assert d[..n] == d && p[n..] == [];
      WalkNone(d);
    }
  }

  lemma WalkDot(d: Path)
    ensures Walk(d, ["."]) == d
  {
    assert ["."][1..] == [];
  }

  lemma WalkNone(d: Path)
    ensures Walk(d, []) == d
  {
  }

  // --- the link grammar ---------------------------------------------------------------------------

  predicate TargetChar(c: char) {
    c != ')' && c != '#' && !IsSpace(c)
  }

  predicate FragmentChar(c: char) {
    c != ')' && !IsSpace(c)
  }

  function TakeTarget(s: string): (n: nat)
    ensures n <= |s|
  {
    if s == "" || !TargetChar(s[0]) then 0 else 1 + TakeTarget(s[1..])
  }

  function TakeFragment(s: string): (n: nat)
    ensures n <= |s|
  {
    if s == "" || !FragmentChar(s[0]) then 0 else 1 + TakeFragment(s[1..])
  }

  /** The length of `(#[^)\s]*)?` */
  function FragmentLength(s: string): (n: nat)
    ensures n <= |s|
  {
    if s != "" && s[0] == '#' then 1 + TakeFragment(s[1..]) else 0
  }

  /** `_LINK_RE` at the front of `s`: the lengths of the target and of the fragment. */
  function MatchLink(s: string): (r: Option<(nat, nat)>)
    ensures r.Some? ==> 0 < r.value.0 && 3 + r.value.0 + r.value.1 <= |s|
  {
    if !("](" <= s) then None
    else
      var t := TakeTarget(s[2..]);
      var f := FragmentLength(s[2 + t..]);
      if t > 0 && 2 + t + f < |s| && s[2 + t + f] == ')' then Some((t, f)) else None
  }

  /** A text as its links and the characters between them. */
  datatype Token = Char(c: char) | Link(target: string, fragment: string)

  function Scan(s: string): seq<Token> {
    if s == "" then []
    else
      match MatchLink(s)
      case None => [Char(s[0])] + Scan(s[1..])
      case Some((t, f)) => [Link(s[2..2 + t], s[2 + t..2 + t + f])] + Scan(s[3 + t + f..])
  }

  function ShowToken(t: Token): (s: string)
    ensures s != ""
  {
    match t
    case Char(c) => [c]
    case Link(target, fragment) => "](" + target + fragment + ")"
  }

  function Show(ts: seq<Token>): string {
    if ts == [] then "" else ShowToken(ts[0]) + Show(ts[1..])
  }

  lemma ShowCons(t: Token, ts: seq<Token>)
    ensures Show([t] + ts) == ShowToken(t) + Show(ts)
  {
    assert ([t] + ts)[1..] == ts;
  }

  lemma ScanChar(s: string)
    requires s != "" && MatchLink(s) == None
    ensures Scan(s) == [Char(s[0])] + Scan(s[1..])
  {
    hide MatchLink;
  }

  lemma ScanLink(s: string, t: nat, f: nat)
    requires s != "" && MatchLink(s) == Some((t, f))
    ensures Scan(s) == [Link(s[2..2 + t], s[2 + t..2 + t + f])] + Scan(s[3 + t + f..])
  {
    hide MatchLink;
  }

  lemma {:induction false} ShowScan(s: string)
    ensures Show(Scan(s)) == s
    decreases |s|
  {
    hide MatchLink, Scan, Show;
    if s == "" {
      ScanNothing();
    } else {
      match MatchLink(s)
      case None =>
        ScanChar(s);
        ShowScan(s[1..]);
        ShowCons(Char(s[0]), Scan(s[1..]));
        assert [s[0]] + s[1..] == s;
      case Some((t, f)) =>
        ScanLink(s, t, f);
        ShowScan(s[3 + t + f..]);
        ShowCons(Link(s[2..2 + t], s[2 + t..2 + t + f]), Scan(s[3 + t + f..]));
        MatchedText(s, t, f);
    }
  }

  lemma ScanNothing()
    ensures Scan("") == [] && Show([]) == ""
  {
  }

  lemma MatchedText(s: string, t: nat, f: nat)
    requires MatchLink(s) == Some((t, f))
    ensures s == "](" + s[2..2 + t] + s[2 + t..2 + t + f] + ")" + s[3 + t + f..]
  {
    hide TakeTarget, FragmentLength;
    Parts(s, 2, 2 + t, 2 + t + f, 3 + t + f);
    assert s[..2] == "](" && s[2 + t + f..3 + t + f] == ")";
  }

  lemma Parts(s: string, i: nat, j: nat, k: nat, l: nat)
    requires i <= j <= k <= l <= |s|
    ensures s == s[..i] + s[i..j] + s[j..k] + s[k..l] + s[l..]
  {
    assert s[..j] == s[..i] + s[i..j] && s[..k] == s[..j] + s[j..k] && s[..l] == s[..k] + s[k..l];
    assert s == s[..l] + s[l..];
  }

  predicate SafeTarget(t: string) {
    t != "" && forall i | 0 <= i < |t| :: TargetChar(t[i])
  }

  predicate SafeFragment(f: string) {
    f != "" ==> f[0] == '#' && forall i | 0 < i < |f| :: FragmentChar(f[i])
  }

  predicate Safe(t: Token) {
    t.Link? ==> SafeTarget(t.target) && SafeFragment(t.fragment)
  }

  lemma {:induction false} TakeTargetAll(t: string, rest: string)
    requires (forall i | 0 <= i < |t| :: TargetChar(t[i])) && (rest != "" ==> !TargetChar(rest[0]))
    ensures TakeTarget(t + rest) == |t|
  {
    if t == "" {
      assert t + rest == rest;
    } else {
      assert (t + rest)[1..] == t[1..] + rest;
      TakeTargetAll(t[1..], rest);
    }
  }

  lemma {:induction false} TakeFragmentAll(f: string, rest: string)
    requires (forall i | 0 <= i < |f| :: FragmentChar(f[i])) && (rest != "" ==> !FragmentChar(rest[0]))
    ensures TakeFragment(f + rest) == |f|
  {
    if f == "" {
      assert f + rest == rest;
    } else {
      assert (f + rest)[1..] == f[1..] + rest;
      TakeFragmentAll(f[1..], rest);
    }
  }

  lemma {:induction false} TakesTarget(s: string)
    ensures forall i | 0 <= i < TakeTarget(s) :: TargetChar(s[i])
    ensures TakeTarget(s) < |s| ==> !TargetChar(s[TakeTarget(s)])
  {
    if s != "" && TargetChar(s[0]) {
      TakesTarget(s[1..]);
      assert forall i | 0 < i < |s| :: s[i] == s[1..][i - 1];
    }
  }

  lemma {:induction false} TakesFragment(s: string)
    ensures forall i | 0 <= i < TakeFragment(s) :: FragmentChar(s[i])
  {
    if s != "" && FragmentChar(s[0]) {
      TakesFragment(s[1..]);
      assert forall i | 0 < i < |s| :: s[i] == s[1..][i - 1];
    }
  }

  lemma FragmentReads(f: string, rest: string)
    requires SafeFragment(f)
    ensures FragmentLength(f + (")" + rest)) == |f|
  {
    hide TakeFragment, FragmentChar;
    var tail := ")" + rest;
    if f != "" {
      assert (f + tail)[1..] == f[1..] + tail;
      Closes();
      TakeFragmentAll(f[1..], tail);
    } else {
      assert f + tail == tail;
    }
  }

  lemma MatchParts(s: string, t: nat, f: nat)
    requires "](" <= s && 0 < t && 2 + t + f < |s|
    requires TakeTarget(s[2..]) == t && FragmentLength(s[2 + t..]) == f && s[2 + t + f] == ')'
    ensures MatchLink(s) == Some((t, f))
  {
    hide TakeTarget, FragmentLength;
  }

  lemma LinkText(target: string, fragment: string, rest: string)
    ensures var s := ShowToken(Link(target, fragment)) + rest;
      && s == "](" + target + fragment + (")" + rest)
      && s[2..] == target + (fragment + (")" + rest))
      && s[2 + |target|..] == fragment + (")" + rest)
  {
    var tail := fragment + (")" + rest);
    var s := ShowToken(Link(target, fragment)) + rest;
    Regrouped("](", target, fragment, ")", rest);
    DropFront("](", target + tail);
    Grouped("](", target, tail);
    DropFront("](" + target, tail);
    Grouped("](" + target, fragment, ")" + rest);
  }

  lemma Grouped(a: string, b: string, c: string)
    ensures a + b + c == a + (b + c)
  {
  }

  lemma Regrouped(a: string, b: string, c: string, d: string, e: string)
    ensures (a + b + c + d) + e == a + (b + (c + (d + e)))
  {
    Grouped(a + b + c, d, e);
    Grouped(a + b, c, d + e);
    Grouped(a, b, c + (d + e));
  }

  lemma DropFront(a: string, b: string)
    ensures (a + b)[|a|..] == b
  {
  }

  /** A safe link is read back whole, whatever follows it. */
  lemma LinkReads(t: Token, rest: string)
    requires t.Link? && Safe(t)
    ensures MatchLink(ShowToken(t) + rest) == Some((|t.target|, |t.fragment|))
  {
    hide TakeTarget, FragmentLength, TargetChar, SafeFragment, MatchLink;
    var target, fragment := t.target, t.fragment;
    var tail := ")" + rest;
    var s := ShowToken(t) + rest;
    LinkText(target, fragment, rest);
    Stops(fragment, tail);
    TakeTargetAll(target, fragment + tail);
    FragmentReads(fragment, rest);
    MatchParts(s, |target|, |fragment|);
  }

  /** A link is `](`, a target without parenthesis, hash or whitespace, a fragment or none, and a closing parenthesis. */
  lemma LinkIsFound(target: string, fragment: string, rest: string)
    requires target != "" && forall i | 0 <= i < |target| :: target[i] != ')' && target[i] != '#' && !IsSpace(target[i])
    requires fragment != "" ==> fragment[0] == '#'
    requires forall i | 0 <= i < |fragment| :: fragment[i] != ')' && !IsSpace(fragment[i])
    ensures Scan("](" + target + fragment + ")" + rest) == [Link(target, fragment)] + Scan(rest)
  {
    hide Scan, IsSpace;
    LinkScans(Link(target, fragment), rest);
  }

  lemma Stops(fragment: string, tail: string)
    requires SafeFragment(fragment) && tail != "" && tail[0] == ')'
    ensures !TargetChar((fragment + tail)[0])
  {
  }

  lemma Closes()
    ensures !FragmentChar(')')
  {
  }

  /** The scanner only finds safe links. */
  lemma {:induction false} ScanSafe(s: string)
    ensures forall t <- Scan(s) :: Safe(t)
    decreases |s|
  {
    hide MatchLink;
    if s != "" {
      match MatchLink(s)
      case None => ScanSafe(s[1..]);
      case Some((t, f)) =>
        ScanSafe(s[3 + t + f..]);
        MatchSafe(s, t, f);
    }
  }

  lemma MatchSafe(s: string, t: nat, f: nat)
    requires MatchLink(s) == Some((t, f))
    ensures Safe(Link(s[2..2 + t], s[2 + t..2 + t + f]))
  {
    hide TargetChar, FragmentChar, TakeTarget, TakeFragment;
    TakesTarget(s[2..]);
    assert forall i | 0 <= i < t :: s[2..2 + t][i] == s[2..][i];
    if f > 0 {
      var rest := s[3 + t..];
      assert s[2 + t..][1..] == rest;
      TakesFragment(rest);
      var fragment := s[2 + t..2 + t + f];
      forall i | 0 < i < f ensures FragmentChar(fragment[i]) {
        assert fragment[i] == s[2 + t + i] == rest[i - 1];
      }
    }
  }

  // --- a rewrite is read back as it was meant -----------------------------------------------------

  /** Whether a link closes in what follows `](`: before its target, in its target, or in its fragment. */
  datatype Where = Start | InTarget | InFragment

  predicate Closing(q: Where, s: string)
    decreases |s|
  {
    if s == "" || IsSpace(s[0]) then false
    else if s[0] == ')' then q != Start
    else if s[0] == '#' then q != Start && Closing(InFragment, s[1..])
    else Closing(if q == InFragment then InFragment else InTarget, s[1..])
  }

  lemma {:induction false} ClosingFragment(s: string)
    ensures Closing(InFragment, s) <==> TakeFragment(s) < |s| && s[TakeFragment(s)] == ')'
  {
    if s != "" && FragmentChar(s[0]) {
      ClosingFragment(s[1..]);
    }
  }

  lemma {:induction false} ClosingTarget(s: string)
    ensures var t := TakeTarget(s);
      var f := FragmentLength(s[t..]);
      Closing(InTarget, s) <==> t + f < |s| && s[t + f] == ')'
  {
    if s != "" {
      if TargetChar(s[0]) {
        ClosingTarget(s[1..]);
        assert s[1..][TakeTarget(s[1..])..] == s[TakeTarget(s)..];
      } else if s[0] == '#' {
        ClosingFragment(s[1..]);
        assert s[0..] == s;
      }
    }
  }

  lemma MatchIsClosing(s: string)
    ensures MatchLink(s).Some? <==> "](" <= s && Closing(Start, s[2..])
  {
    if "](" <= s {
      var r := s[2..];
      if r != "" && TargetChar(r[0]) {
        ClosingTarget(r[1..]);
        var t := TakeTarget(r);
        assert r[1..][TakeTarget(r[1..])..] == s[2 + t..];
      }
    }
  }

  lemma {:induction false} ClosingThrough(q: Where, t: string, rest: string)
    requires forall i | 0 <= i < |t| :: TargetChar(t[i])
    requires t != "" || q != Start
    ensures Closing(q, t + rest) <==> Closing(if q == InFragment then InFragment else InTarget, rest)
    decreases |t|
  {
    if t == "" {
      assert t + rest == rest;
    } else {
      assert (t + rest)[1..] == t[1..] + rest;
      ClosingThrough(if q == InFragment then InFragment else InTarget, t[1..], rest);
    }
  }

  lemma {:induction false} ClosingThroughFragment(f: string, rest: string)
    requires forall i | 0 <= i < |f| :: FragmentChar(f[i])
    ensures Closing(InFragment, f + rest) <==> Closing(InFragment, rest)
  {
    if f == "" {
      assert f + rest == rest;
    } else {
      assert (f + rest)[1..] == f[1..] + rest;
      ClosingThroughFragment(f[1..], rest);
    }
  }

  /** A whole link closes whatever was open before it. */
  lemma LinkCloses(q: Where, t: Token, rest: string)
    requires t.Link? && Safe(t)
    ensures Closing(q, ShowToken(t) + rest)
  {
    var target := "](" + t.target;
    var after := t.fragment + (")" + rest);
    assert ShowToken(t) + rest == target + after;
    assert forall i | 0 <= i < |target| :: TargetChar(target[i]) by {
      assert forall i | 2 <= i < |target| :: target[i] == t.target[i - 2];
    }
    ClosingThrough(q, target, after);
    var q' := if q == InFragment then InFragment else InTarget;
    var tail := ")" + rest;
    if t.fragment == "" {
      assert after == tail;
    } else {
      assert after[1..] == t.fragment[1..] + tail;
      ClosingThroughFragment(t.fragment[1..], tail);
      assert after[0] == '#';
    }
  }

  /** The same characters, and links in the same places, those of `ts` as the scanner finds them. */
  predicate SameShape(ts: seq<Token>, us: seq<Token>) {
    |ts| == |us| && forall i | 0 <= i < |ts| ::
      if ts[i].Char? then ts[i] == us[i] else us[i].Link? && Safe(ts[i])
  }

  /** What does not close with the links of `ts` behind it does not close with others. */
  lemma {:induction false} ClosingSameShape(q: Where, ts: seq<Token>, us: seq<Token>)
    requires SameShape(ts, us) && !Closing(q, Show(ts))
    ensures !Closing(q, Show(us))
    decreases |ts|
  {
    hide Safe, IsSpace;
    if ts != [] {
      if ts[0].Link? {
        LinkCloses(q, ts[0], Show(ts[1..]));
      } else {
        var c := ts[0].c;
        assert Show(ts)[1..] == Show(ts[1..]) && Show(us)[1..] == Show(us[1..]);
        if !IsSpace(c) && c != ')' && !(c == '#' && q == Start) {
          ClosingSameShape(if c == '#' || q == InFragment then InFragment else InTarget, ts[1..], us[1..]);
        }
      }
    }
  }

  lemma ShowChar(ts: seq<Token>)
    requires ts != [] && ts[0].Char?
    ensures Show(ts) == [ts[0].c] + Show(ts[1..])
  {
  }

  lemma ShowStart(ts: seq<Token>)
    requires ts != []
    ensures Show(ts) != "" && Show(ts)[0] == if ts[0].Char? then ts[0].c else ']'
  {
  }

  /** A text opens a link with two characters, and never inside one. */
  lemma Opens(ts: seq<Token>)
    requires ts != [] && ts[0].Char?
    ensures "](" <= Show(ts) <==> |ts| >= 2 && ts[0] == Char(']') && ts[1] == Char('(')
    ensures "](" <= Show(ts) ==> Show(ts)[2..] == Show(ts[2..])
  {
    hide Show;
    ShowChar(ts);
    var s := Show(ts);
    assert "](" <= s <==> |s| >= 2 && s[0] == ']' && s[1] == '(';
    if |ts| >= 2 {
      ShowStart(ts[1..]);
      if ts[1].Char? {
        ShowChar(ts[1..]);
        assert ts[1..][1..] == ts[2..];
      }
    } else {
      assert ts[1..] == [] && Show([]) == "" by { ShowNothing(); }
    }
  }

  lemma ShowNothing()
    ensures Show([]) == ""
  {
  }

  lemma MatchSameShape(ts: seq<Token>, us: seq<Token>)
    requires SameShape(ts, us) && ts != [] && ts[0].Char? && MatchLink(Show(ts)).None?
    ensures MatchLink(Show(us)).None?
  {
    hide MatchLink, Closing, Show, Safe;
    MatchIsClosing(Show(ts));
    MatchIsClosing(Show(us));
    Opens(ts);
    Opens(us);
    if "](" <= Show(ts) {
      ClosingSameShape(Start, ts[2..], us[2..]);
    }
  }

  /** Every link read on its own: as itself where it can be spelled, and as whatever its text amounts to elsewhere. */
  function Alone(ts: seq<Token>): seq<Token> {
    if ts == [] then []
    else (if ts[0].Char? then [ts[0]] else Scan(ShowToken(ts[0]))) + Alone(ts[1..])
  }

  /** Replacing links changes what is read in their places and nowhere else. */
  lemma {:induction false} ScanSameShape(ts: seq<Token>, us: seq<Token>)
    requires SameShape(ts, us) && Scan(Show(ts)) == ts
    ensures Scan(Show(us)) == Alone(us)
    decreases |ts|
  {
    hide MatchLink, Safe;
    if ts != [] {
      var rest, more := Show(ts[1..]), Show(us[1..]);
      if ts[0].Char? {
        assert MatchLink(Show(ts)).None?;
        MatchSameShape(ts, us);
        assert Show(ts)[1..] == rest && Show(us)[1..] == more;
        assert Scan(Show(ts))[1..] == Scan(rest);
      } else {
        LinkScans(ts[0], rest);
        LinkApart(us[0], more);
      }
      ScanSameShape(ts[1..], us[1..]);
    }
  }

  // --- where the scanner starts afresh ------------------------------------------------------------

  lemma {:induction false} TakeTargetApart(a: string, c: char, y: string)
    requires !TargetChar(c)
    ensures TakeTarget(a + [c] + y) == TakeTarget(a + [c]) == TakeTarget(a) <= |a|
  {
    hide TargetChar;
    if a == "" {
      assert (a + [c] + y)[0] == c;
    } else {
      TakeTargetApart(a[1..], c, y);
      assert (a + [c] + y)[1..] == a[1..] + [c] + y && (a + [c])[1..] == a[1..] + [c];
    }
  }

  lemma {:induction false} TakeFragmentApart(a: string, c: char, y: string)
    requires !FragmentChar(c)
    ensures TakeFragment(a + [c] + y) == TakeFragment(a + [c]) == TakeFragment(a) <= |a|
  {
    hide FragmentChar;
    if a == "" {
      assert (a + [c] + y)[0] == c;
    } else {
      TakeFragmentApart(a[1..], c, y);
      assert (a + [c] + y)[1..] == a[1..] + [c] + y && (a + [c])[1..] == a[1..] + [c];
    }
  }

  lemma FragmentApart(a: string, c: char, y: string)
    requires !FragmentChar(c)
    ensures FragmentLength(a + [c] + y) == FragmentLength(a + [c]) == FragmentLength(a) <= |a|
  {
    hide TakeFragment;
    if a == "" {
      assert (a + [c] + y)[0] == c;
    } else {
      assert (a + [c] + y)[1..] == a[1..] + [c] + y && (a + [c])[1..] == a[1..] + [c];
      TakeFragmentApart(a[1..], c, y);
    }
  }

  /** A link ends before a closing parenthesis or whitespace that follows, or with it. */
  lemma MatchApart(x: string, c: char, y: string)
    requires x != "" && !FragmentChar(c)
    ensures MatchLink(x + [c] + y) == MatchLink(x + [c])
    ensures IsSpace(c) ==> MatchLink(x + [c]) == MatchLink(x)
  {
    hide TakeTarget, FragmentLength, IsSpace;
    var s, s0 := x + [c] + y, x + [c];
    OpensNot(c);
    assert "](" <= s <==> |s| >= 2 && s[0] == ']' && s[1] == '(';
    assert "](" <= s0 <==> |s0| >= 2 && s0[0] == ']' && s0[1] == '(';
    assert "](" <= x <==> |x| >= 2 && x[0] == ']' && x[1] == '(';
    if "](" <= x {
      var a := x[2..];
      assert s[2..] == a + [c] + y && s0[2..] == a + [c];
      TakeTargetApart(a, c, y);
      var t := TakeTarget(a);
      var b := a[t..];
      assert s[2 + t..] == b + [c] + y && s0[2 + t..] == b + [c] && x[2 + t..] == b;
      FragmentApart(b, c, y);
    }
  }

  lemma OpensNot(c: char)
    requires !FragmentChar(c)
    ensures c != '(' && (IsSpace(c) ==> c != ')')
  {
  }

  /** What follows a closing parenthesis or whitespace is scanned afresh. */
  lemma {:induction false} ScanApart(x: string, c: char, y: string)
    requires !FragmentChar(c)
    ensures Scan(x + [c] + y) == Scan(x + [c]) + Scan(y)
    decreases |x|
  {
    hide MatchLink, FragmentChar, Scan;
    var s, s0 := x + [c] + y, x + [c];
    if x == "" {
      NoMatchAtCloser(c, "");
      NoMatchAtCloser(c, y);
      assert s == [c] + y && s0 == [c] + "";
      ScanChar(s);
      ScanChar(s0);
      ScanNothing();
      assert s[1..] == y && s0[1..] == "";
    } else {
      MatchApart(x, c, y);
      match MatchLink(s)
      case None =>
        ScanChar(s);
        ScanChar(s0);
        assert s[1..] == x[1..] + [c] + y && s0[1..] == x[1..] + [c];
        ScanApart(x[1..], c, y);
      case Some((t, f)) =>
        ScanLink(s, t, f);
        ScanLink(s0, t, f);
        var n := 3 + t + f;
        assert s[2..2 + t] == s0[2..2 + t] && s[2 + t..2 + t + f] == s0[2 + t..2 + t + f];
        if n <= |x| {
          assert s[n..] == x[n..] + [c] + y && s0[n..] == x[n..] + [c];
          ScanApart(x[n..], c, y);
        } else {
          assert s[n..] == y && s0[n..] == "";
          ScanNothing();
        }
    }
  }

  lemma NoMatchAtCloser(c: char, y: string)
    requires !FragmentChar(c)
    ensures MatchLink([c] + y) == None
  {
    assert ([c] + y)[0] != ']';
  }

  lemma {:induction false} ScanSpace(x: string, c: char)
    requires IsSpace(c)
    ensures Scan(x + [c]) == Scan(x) + [Char(c)]
    decreases |x|
  {
    hide MatchLink, IsSpace, Scan;
    assert !FragmentChar(c);
    var s := x + [c];
    if x == "" {
      NoMatchAtCloser(c, "");
      assert s == [c] + "";
      ScanChar(s);
      ScanNothing();
      assert s[1..] == "";
    } else {
      MatchApart(x, c, "");
      match MatchLink(x)
      case None =>
        ScanChar(x);
        ScanChar(s);
        assert s[1..] == x[1..] + [c];
        ScanSpace(x[1..], c);
      case Some((t, f)) =>
        ScanLink(x, t, f);
        ScanLink(s, t, f);
        var n := 3 + t + f;
        assert s[2..2 + t] == x[2..2 + t] && s[2 + t..2 + t + f] == x[2 + t..2 + t + f];
        assert s[n..] == x[n..] + [c];
        ScanSpace(x[n..], c);
    }
  }

  /** No link goes over the end of a line. */
  lemma ScanLines(x: string, y: string)
    ensures Scan(x + "\n" + y) == Scan(x) + [Char('\n')] + Scan(y)
  {
    hide Scan;
    ScanApart(x, '\n', y);
    ScanSpace(x, '\n');
  }

  /** A link is read on its own, whatever follows it. */
  lemma LinkApart(t: Token, rest: string)
    requires t.Link?
    ensures Scan(ShowToken(t) + rest) == Scan(ShowToken(t)) + Scan(rest)
  {
    hide Scan;
    ScanApart("](" + t.target + t.fragment, ')', rest);
  }

  lemma AloneSafe(t: Token)
    requires t.Link? && SafeFragment(t.fragment)
    ensures Scan(ShowToken(t)) == [t] <==> SafeTarget(t.target)
  {
    hide Scan, SafeTarget, SafeFragment, ShowToken;
    if SafeTarget(t.target) {
      LinkScans(t, "");
      ScanNothing();
      assert ShowToken(t) + "" == ShowToken(t);
      assert [t] + [] == [t];
    } else {
      ScanSafe(ShowToken(t));
      assert t in [t];
    }
  }

  lemma LinkScans(t: Token, rest: string)
    requires t.Link? && Safe(t)
    ensures Scan(ShowToken(t) + rest) == [t] + Scan(rest)
  {
    hide MatchLink, Safe, Scan;
    LinkReads(t, rest);
    var s := ShowToken(t) + rest;
    var n, f := |t.target|, |t.fragment|;
    ScanLink(s, n, f);
    assert s[2..2 + n] == t.target;
    assert s[2 + n..2 + n + f] == t.fragment;
    assert s[3 + n + f..] == rest;
  }

  // --- rewriting links ----------------------------------------------------------------------------

  predicate SchemeTail(t: string) {
    t != "" && (t[0] == ':' || ((('a' <= t[0] <= 'z') || ('0' <= t[0] <= '9') || t[0] in "+.-") && SchemeTail(t[1..])))
  }

  /** `re.match(r"^[a-z][a-z0-9+.-]*:", t)` */
  predicate Scheme(t: string) {
    t != "" && 'a' <= t[0] <= 'z' && SchemeTail(t[1..])
  }

  /** Neither a URL nor an absolute path. */
  predicate Relative(t: string) {
    t != "" && !Scheme(t) && t[0] != '/'
  }

  predicate SchemeChar(c: char) {
    'a' <= c <= 'z' || '0' <= c <= '9' || c == '+' || c == '.' || c == '-'
  }

  /** A lower-case letter, then lower-case letters, digits, `+`, `.` or `-` up to a colon. */
  predicate Url(t: string) {
    exists k | 0 < k < |t| :: t[k] == ':' && 'a' <= t[0] <= 'z' && forall i | 0 < i < k :: SchemeChar(t[i])
  }

  lemma {:induction false} SchemeTailIs(t: string)
    ensures SchemeTail(t) <==> exists k | 0 <= k < |t| :: t[k] == ':' && forall i | 0 <= i < k :: SchemeChar(t[i])
  {
    if t != "" {
      var rest := t[1..];
      SchemeTailIs(rest);
      if t[0] == ':' {
        assert SchemeTail(t);
      } else if SchemeTail(t) {
        var k :| 0 <= k < |rest| && rest[k] == ':' && forall i | 0 <= i < k :: SchemeChar(rest[i]);
        assert t[k + 1] == ':';
        assert forall i | 0 < i < k + 1 :: t[i] == rest[i - 1];
      } else if SchemeChar(t[0]) {
        forall k | 0 <= k < |t| && t[k] == ':' ensures !(forall i | 0 <= i < k :: SchemeChar(t[i])) {
          assert rest[k - 1] == ':';
          var i :| 0 <= i < k - 1 && !SchemeChar(rest[i]);
          assert t[i + 1] == rest[i];
        }
      }
    }
  }

  /** A relative target neither starts with a slash nor reads as a URL. */
  lemma RelativeIs(t: string)
    ensures Relative(t) <==> t != "" && t[0] != '/' && !Url(t)
  {
    hide SchemeTail;
    if t != "" {
      var rest := t[1..];
      SchemeTailIs(rest);
      if Scheme(t) {
        var k :| 0 <= k < |rest| && rest[k] == ':' && forall i | 0 <= i < k :: SchemeChar(rest[i]);
        assert t[k + 1] == ':';
        assert forall i | 0 < i < k + 1 :: t[i] == rest[i - 1];
      }
      if Url(t) {
        var k :| 0 < k < |t| && t[k] == ':' && 'a' <= t[0] <= 'z' && forall i | 0 < i < k :: SchemeChar(t[i]);
        assert rest[k - 1] == ':';
        assert forall i | 0 <= i < k - 1 :: rest[i] == t[i + 1];
      }
    }
  }

  function RewriteToken(t: Token, rewrite: string -> Option<string>): Token {
    if t.Link? && Relative(t.target) && rewrite(t.target).Some? then t.(target := rewrite(t.target).value) else t
  }

  /** A link to a URL or to an absolute path is left alone, whatever the rewrite; every other one gets what the rewrite
      answers. */
  lemma RewriteApplies(t: Token, rewrite: string -> Option<string>)
    requires t.Link? && t.target != ""
    ensures t.target[0] == '/' || Url(t.target) ==> RewriteToken(t, rewrite) == t
    ensures t.target[0] != '/' && !Url(t.target) ==>
      RewriteToken(t, rewrite) ==
        match rewrite(t.target) case None => t case Some(new_) => Link(new_, t.fragment)
  {
    hide Relative, Url;
    RelativeIs(t.target);
  }

  function RewriteTokens(ts: seq<Token>, rewrite: string -> Option<string>): seq<Token> {
    seq(|ts|, i requires 0 <= i < |ts| => RewriteToken(ts[i], rewrite))
  }

  /** `_rewrite_links` */
  function RewriteLinks(text: string, rewrite: string -> Option<string>): string {
    Show(RewriteTokens(Scan(text), rewrite))
  }

  /** Every relative target the rewrite answers for gets one a link can spell. */
  predicate RewritesSafely(text: string, rewrite: string -> Option<string>) {
    forall t <- Scan(text) | t.Link? && Relative(t.target) && rewrite(t.target).Some? ::
      SafeTarget(rewrite(t.target).value)
  }

  /** The rewritten text reads as the rewritten links, each on its own, among the same characters. */
  lemma RewriteReadsEach(text: string, rewrite: string -> Option<string>)
    ensures Scan(RewriteLinks(text, rewrite)) == Alone(RewriteTokens(Scan(text), rewrite))
  {
    hide Scan, Show, SafeTarget, SafeFragment, Relative;
    var ts := Scan(text);
    var us := RewriteTokens(ts, rewrite);
    ShowScan(text);
    ScanSafe(text);
    forall i | 0 <= i < |ts| ensures if ts[i].Char? then ts[i] == us[i] else us[i].Link? && Safe(ts[i]) {
      assert ts[i] in Scan(text);
    }
    ScanSameShape(ts, us);
  }

  lemma AloneNothing()
    ensures Alone([]) == []
  {
  }

  lemma AloneStep(t: Token, ts: seq<Token>)
    ensures Alone([t] + ts) == (if t.Char? then [t] else Scan(ShowToken(t))) + Alone(ts)
  {
    hide Scan;
    assert ([t] + ts)[1..] == ts;
  }

  lemma {:induction false} AloneAll(ts: seq<Token>)
    requires forall t <- ts :: Safe(t)
    ensures Alone(ts) == ts
  {
    hide Scan, Safe, Alone;
    if ts == [] {
      AloneNothing();
    } else {
      var t, rest := ts[0], ts[1..];
      assert t in ts && ts == [t] + rest;
      if t.Link? {
        LinkScans(t, "");
        ScanNothing();
        assert ShowToken(t) + "" == ShowToken(t);
        assert [t] + [] == [t];
      }
      AloneStep(t, rest);
      AloneAll(rest);
    }
  }

  /** They are all read as they are, if and only if every new target is one a link can spell. */
  lemma RewriteReads(text: string, rewrite: string -> Option<string>)
    ensures Scan(RewriteLinks(text, rewrite)) == RewriteTokens(Scan(text), rewrite) <==> RewritesSafely(text, rewrite)
  {
    hide Scan, Show, SafeTarget, SafeFragment, Relative, Alone;
    var ts := Scan(text);
    var us := RewriteTokens(ts, rewrite);
    ScanSafe(text);
    RewriteReadsEach(text, rewrite);
    if RewritesSafely(text, rewrite) {
      forall u <- us ensures Safe(u) {
        var i :| 0 <= i < |us| && us[i] == u;
        assert ts[i] in Scan(text) && Safe(ts[i]);
      }
      AloneAll(us);
    } else {
      var t :| t in ts && t.Link? && Relative(t.target) && rewrite(t.target).Some? && !SafeTarget(rewrite(t.target).value);
      var i :| 0 <= i < |ts| && ts[i] == t;
      assert us[i] in us && !Safe(us[i]);
      ScanSafe(RewriteLinks(text, rewrite));
    }
  }
}
