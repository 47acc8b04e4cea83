/** Frontmatter of an issue file, edited line by line: `set_fields` of tools/issues/issues.py. */
module Frontmatter {
  import opened Text

  // --- where the frontmatter is -------------------------------------------------------------------

  predicate Delimiter(line: string) {
    Strip(line) == "---"
  }

  predicate NoDelimiter(lines: Lines) {
    forall i | 0 <= i < |lines| :: !Delimiter(lines[i])
  }

  /** The first delimiter at or after `i`. */
  function FindClose(lines: Lines, i: nat): (r: Option<nat>)
    requires i <= |lines|
    ensures r.Some? ==> i <= r.value < |lines| && Delimiter(lines[r.value]) && NoDelimiter(lines[i..r.value])
    ensures r.None? ==> NoDelimiter(lines[i..])
    decreases |lines| - i
  {
    if i == |lines| then None
    else if Delimiter(lines[i]) then Some(i)
    else FindClose(lines, i + 1)
  }

  /** `_frontmatter_end`: the closing delimiter of a file that opens with one. */
  function End(lines: Lines): (r: Option<nat>)
    ensures r.Some? ==> 1 <= r.value < |lines| && Delimiter(lines[0]) && Delimiter(lines[r.value])
    ensures r.Some? ==> NoDelimiter(lines[1..r.value])
    ensures r.None? <==> lines == [] || !Delimiter(lines[0]) || NoDelimiter(lines[1..])
  {
    if lines == [] || !Delimiter(lines[0]) then None
    else
      var r := FindClose(lines, 1);
      assert r.Some? ==> Delimiter(lines[1..][r.value - 1]);
      r
  }

  /** The lines up to and including the closing delimiter; none without a frontmatter. */
  function Prefix(lines: Lines): Lines {
    var end := End(lines);
    if end.Some? then lines[..end.value + 1] else []
  }

  /** The lines between the delimiters. */
  function Front(lines: Lines): Lines {
    var end := End(lines);
    if end.Some? then lines[1..end.value] else []
  }

  /** The lines after the frontmatter. */
  function Body(lines: Lines): Lines {
    var end := End(lines);
    if end.Some? then lines[end.value + 1..] else lines
  }

  /** A file that opens a frontmatter and never closes it. */
  predicate Dangling(lines: Lines) {
    lines != [] && Delimiter(lines[0]) && End(lines).None?
  }

  lemma EndUnique(lines: Lines, e: nat)
    requires 1 <= e < |lines| && Delimiter(lines[0]) && Delimiter(lines[e]) && NoDelimiter(lines[1..e])
    ensures End(lines) == Some(e)
  {
    assert lines[1..][e - 1] == lines[e];
    var r := End(lines).value;
    assert forall i | 1 <= i < e :: lines[1..e][i - 1] == lines[i];
    assert forall i | 1 <= i < r :: lines[1..r][i - 1] == lines[i];
  }

  lemma Framed(open: string, fm: Lines, close: string, rest: Lines)
    requires Delimiter(open) && Delimiter(close) && NoDelimiter(fm)
    ensures var lines := [open] + fm + [close] + rest;
      End(lines) == Some(|fm| + 1) && Front(lines) == fm && Body(lines) == rest
      && Prefix(lines) == [open] + fm + [close]
  {
    var lines := [open] + fm + [close] + rest;
    assert lines[1..|fm| + 1] == fm;
    EndUnique(lines, |fm| + 1);
  }

  lemma Reassemble(lines: Lines)
    ensures Prefix(lines) + Body(lines) == lines
    ensures End(lines).Some? ==>
      lines == [lines[0]] + Front(lines) + [lines[End(lines).value]] + Body(lines)
  {
    hide Delimiter, NoDelimiter;
  }

  // --- keys and blocks ----------------------------------------------------------------------------

  /** A block value goes on on indented lines and on `- ` items at column 0. */
  predicate Continues(line: string) {
    line != "" && line[0] in " \t-"
  }

  /** `\s*:` */
  predicate ColonNext(s: string) {
    s != "" && (s[0] == ':' || (IsSpace(s[0]) && ColonNext(s[1..])))
  }

  /** `re.match(rf"{re.escape(key)}\s*:", line)` */
  predicate Matches(key: string, line: string) {
    |key| <= |line| && line[..|key|] == key && ColonNext(line[|key|..])
  }

  /** The keys the tools write: non-empty, without whitespace or colon, and not starting like a list item. */
  predicate PlainKey(key: string) {
    key != "" && key[0] != '-' && forall i | 0 <= i < |key| :: !IsSpace(key[i]) && key[i] != ':'
  }

  /** The longest prefix without whitespace or colon. */
  function Word(line: string): (w: string)
    ensures |w| <= |line| && w == line[..|w|]
    ensures forall i | 0 <= i < |w| :: !IsSpace(w[i]) && w[i] != ':'
    ensures |w| < |line| ==> IsSpace(line[|w|]) || line[|w|] == ':'
  {
    if line == "" || IsSpace(line[0]) || line[0] == ':' then "" else [line[0]] + Word(line[1..])
  }

  /** The top-level key a line sets, if it sets one. */
  function KeyOf(line: string): Option<string> {
    var w := Word(line);
    if PlainKey(w) && ColonNext(line[|w|..]) then Some(w) else None
  }

  /** The regular expression finds exactly the line's own key. */
  lemma MatchesIsKeyOf(key: string, line: string)
    requires PlainKey(key)
    ensures Matches(key, line) <==> KeyOf(line) == Some(key)
  {
    var w := Word(line);
    if Matches(key, line) {
      assert line[|key|..][0] == line[|key|];
      assert forall i | 0 <= i < |key| :: line[i] == key[i];
      assert forall i | 0 <= i < |w| :: line[i] == w[i];
      assert w == key;
    }
  }

  lemma ContinuationHasNoKey(line: string)
    requires Continues(line)
    ensures KeyOf(line) == None
  {
    var w := Word(line);
    if w != "" {
      assert w[0] == line[0];
      assert IsSpace(' ') && IsSpace('\t');
    }
  }

  lemma {:induction false} ColonNextIs(s: string) returns (gap: string, value: string)
    requires ColonNext(s)
    ensures Blank(gap) && s == gap + ":" + value
  {
    hide IsSpace;
    if s[0] == ':' {
      gap, value := "", s[1..];
      assert s == "" + ":" + value;
    } else {
      var more, v := ColonNextIs(s[1..]);
      gap, value := [s[0]] + more, v;
      assert s == [s[0]] + s[1..];
    }
  }

  lemma {:induction false} ColonBehind(gap: string, value: string)
    requires Blank(gap)
    ensures ColonNext(gap + ":" + value)
  {
    hide IsSpace;
    var s := gap + ":" + value;
    if gap == "" {
      assert s[0] == ':';
    } else {
      ColonBehind(gap[1..], value);
      assert s[1..] == gap[1..] + ":" + value && s[0] == gap[0];
    }
  }

  /** A line sets a key exactly when it is the key, whitespace or none, a colon, and whatever follows. */
  lemma MatchesIs(key: string, line: string)
    ensures Matches(key, line) <==> exists gap, value :: Blank(gap) && line == key + gap + (":" + value)
  {
    hide ColonNext, Blank;
    if Matches(key, line) {
      var gap, value := ColonNextIs(line[|key|..]);
      assert line == key + (gap + ":" + value);
      assert line == key + gap + (":" + value);
    }
    if exists gap, value :: Blank(gap) && line == key + gap + (":" + value) {
      var gap, value :| Blank(gap) && line == key + gap + (":" + value);
      ColonBehind(gap, value);
      assert line[|key|..] == gap + ":" + value;
    }
  }

  /** A line that goes on with the value above: an indented one, or a list item. */
  predicate GoesOn(line: string) {
    |line| > 0 && (line[0] == ' ' || line[0] == '\t' || line[0] == '-')
  }

  /** What one update does to the first field with its key: its line goes, with every indented line and list item right
      behind it, and nothing else. */
  lemma BlockReplaced(front: Lines, key: string, gap: string, value: string, block: Lines, rest: Lines, new_: Lines)
    requires forall line <- front :: !Matches(key, line)
    requires Blank(gap) && (forall line <- block :: GoesOn(line)) && (rest != [] ==> !GoesOn(rest[0]))
    ensures Splice(front + [key + gap + (":" + value)] + block + rest, key, new_) == front + new_ + rest
  {
    hide Matches, Splice;
    var line := key + gap + (":" + value);
    MatchesIs(key, line);
    var fm := front + [line] + block + rest;
    var start, stop := |front|, |front| + 1 + |block|;
    forall i | 0 <= i < start ensures !Matches(key, fm[i]) {
      assert fm[i] == front[i] && front[i] in front;
    }
    forall i | start < i < stop ensures Continues(fm[i]) {
      assert fm[i] == block[i - start - 1] && block[i - start - 1] in block;
    }
    assert stop < |fm| ==> fm[stop] == rest[0];
    assert fm[start] == line;
    SpliceAt(fm, key, new_, start, stop);
    assert fm[..start] == front && fm[stop..] == rest;
  }

  /** A delimiter is `---` with nothing but whitespace around it. */
  lemma DelimiterIs(line: string)
    ensures Delimiter(line) <==> Padded(line, "---")
  {
    StripIs(line, "---");
  }

  /** How many lines at the front go on with a block value. */
  function Run(fm: Lines): (n: nat)
    ensures n <= |fm|
    ensures forall i | 0 <= i < n :: Continues(fm[i])
    ensures n < |fm| ==> !Continues(fm[n])
  {
    if fm == [] || !Continues(fm[0]) then 0 else 1 + Run(fm[1..])
  }

  /** One update of the loop in `set_fields`: the first line with the key, and its continuation, become `new`. */
  function Splice(fm: Lines, key: string, new_: Lines): Lines {
    if fm == [] then new_
    else if Matches(key, fm[0]) then new_ + fm[1 + Run(fm[1..])..]
    else [fm[0]] + Splice(fm[1..], key, new_)
  }

  // --- the frontmatter as a list of blocks --------------------------------------------------------

  /** A line with the lines that continue it. */
  type Block = b: Lines | b != [] witness [""]

  /** Cuts before every line that does not continue its predecessor. */
  function Blocks(fm: Lines): seq<Block>
    decreases |fm|
  {
    if fm == [] then []
    else
      var e := 1 + Run(fm[1..]);
      var rest := Blocks(fm[e..]);
      [fm[..e]] + rest
  }

  /** The update on blocks: the first block with the key is replaced, removed, or a new one appended. */
  function Put(bs: seq<Block>, key: string, new_: Lines): seq<Block> {
    var put: seq<Block> := if new_ == [] then [] else [new_];
    if bs == [] then put
    else if KeyOf(bs[0][0]) == Some(key) then put + bs[1..]
    else [bs[0]] + Put(bs[1..], key, new_)
  }

  /** What an update writes: nothing, or one line that starts a block. */
  predicate NewBlock(new_: Lines) {
    |new_| <= 1 && (new_ != [] ==> !Continues(new_[0]))
  }

  predicate StartsBlock(fm: Lines) {
    fm != [] ==> !Continues(fm[0])
  }

  lemma {:induction false} RunConcat(b: Lines, x: Lines)
    requires forall i | 0 <= i < |b| :: Continues(b[i])
    requires StartsBlock(x)
    ensures Run(b + x) == |b|
  {
    if b == [] {
      assert b + x == x;
    } else {
      assert (b + x)[1..] == b[1..] + x;
      RunConcat(b[1..], x);
    }
  }

  lemma BlocksCons(b: Lines, x: Lines)
    requires b != [] && StartsBlock(x)
    requires forall i | 0 < i < |b| :: Continues(b[i])
    ensures Blocks(b + x) == [b] + Blocks(x)
  {
    assert (b + x)[1..] == b[1..] + x;
    RunConcat(b[1..], x);
    assert (b + x)[..|b|] == b && (b + x)[|b|..] == x;
  }

  lemma {:induction false} SplicePast(b: Lines, x: Lines, key: string, new_: Lines)
    requires forall i | 0 <= i < |b| :: !Matches(key, b[i])
    ensures Splice(b + x, key, new_) == b + Splice(x, key, new_)
  {
    if b == [] {
      assert b + x == x;
    } else {
      assert (b + x)[1..] == b[1..] + x;
      SplicePast(b[1..], x, key, new_);
    }
  }

  lemma SpliceStartsBlock(fm: Lines, key: string, new_: Lines)
    requires StartsBlock(fm) && NewBlock(new_)
    ensures StartsBlock(Splice(fm, key, new_))
  {
    if fm != [] && Matches(key, fm[0]) && new_ == [] {
      var rest := fm[1..];
      assert fm[1 + Run(rest)..] == rest[Run(rest)..];
    }
  }

  /** The line edit is the block edit: no continuation line changes its block. */
  lemma {:induction false} SpliceIsPut(fm: Lines, key: string, new_: Lines)
    requires PlainKey(key) && NewBlock(new_)
    ensures Blocks(Splice(fm, key, new_)) == Put(Blocks(fm), key, new_)
    decreases |fm|
  {
    hide KeyOf, Matches, Continues, Run;
    if fm == [] {
      if new_ != [] {
        BlocksCons(new_, []);
        assert new_ + [] == new_;
      }
    } else {
      var e := 1 + Run(fm[1..]);
      var b, rest := fm[..e], fm[e..];
      assert fm == b + rest;
      assert StartsBlock(rest) by {
        assert rest != [] ==> rest[0] == fm[1..][e - 1];
      }
      forall i | 0 < i < |b| ensures Continues(b[i]) && !Matches(key, b[i]) {
        assert b[i] == fm[1..][i - 1];
        MatchesIsKeyOf(key, b[i]);
        ContinuationHasNoKey(b[i]);
      }
      MatchesIsKeyOf(key, fm[0]);
      if Matches(key, fm[0]) {
        if new_ == [] {
          assert new_ + rest == rest;
        } else {
          BlocksCons(new_, rest);
        }
      } else {
        SplicePast(b, rest, key, new_);
        SpliceIsPut(rest, key, new_);
        SpliceStartsBlock(rest, key, new_);
        BlocksCons(b, Splice(rest, key, new_));
      }
    }
  }

  // --- the map a frontmatter holds ----------------------------------------------------------------

  /** How many blocks set `key`. */
  function Count(bs: seq<Block>, key: string): nat {
    if bs == [] then 0 else (if KeyOf(bs[0][0]) == Some(key) then 1 else 0) + Count(bs[1..], key)
  }

  /** Each key with its block; the first one when a key is given twice. */
  function AsMap(bs: seq<Block>): map<string, Lines> {
    if bs == [] then map[]
    else
      var rest := AsMap(bs[1..]);
      match KeyOf(bs[0][0])
      case None => rest
      case Some(k) => rest[k := bs[0]]
  }

  /** The blocks an update of `key` may not touch. */
  function Others(bs: seq<Block>, key: string): seq<Block> {
    if bs == [] then []
    else (if KeyOf(bs[0][0]) == Some(key) then [] else [bs[0]]) + Others(bs[1..], key)
  }

  lemma {:induction false} CountedInMap(bs: seq<Block>, key: string)
    ensures key in AsMap(bs) <==> Count(bs, key) > 0
  {
    if bs != [] {
      CountedInMap(bs[1..], key);
    }
  }

  /** `set_fields` on one key is a map update. */
  lemma {:induction false} PutIsMapUpdate(bs: seq<Block>, key: string, new_: Lines)
    requires Count(bs, key) <= 1
    requires new_ != [] ==> KeyOf(new_[0]) == Some(key)
    ensures AsMap(Put(bs, key, new_)) == if new_ == [] then AsMap(bs) - {key} else AsMap(bs)[key := new_]
  {
    hide KeyOf;
    var after := Put(bs, key, new_);
    if bs == [] {
      assert new_ != [] ==> after[1..] == [];
    } else if KeyOf(bs[0][0]) == Some(key) {
      CountedInMap(bs[1..], key);
      assert after == if new_ == [] then bs[1..] else [new_] + bs[1..];
    } else {
      PutIsMapUpdate(bs[1..], key, new_);
      assert after[1..] == Put(bs[1..], key, new_);
    }
  }

  /** Every other block stays, in its place. */
  lemma {:induction false} PutKeepsOthers(bs: seq<Block>, key: string, new_: Lines)
    requires new_ != [] ==> KeyOf(new_[0]) == Some(key)
    ensures Others(Put(bs, key, new_), key) == Others(bs, key)
  {
    hide KeyOf;
    var after := Put(bs, key, new_);
    if bs == [] {
      assert new_ != [] ==> after[1..] == [];
    } else if KeyOf(bs[0][0]) == Some(key) {
      assert after == if new_ == [] then bs[1..] else [new_] + bs[1..];
    } else {
      PutKeepsOthers(bs[1..], key, new_);
      assert after[1..] == Put(bs[1..], key, new_);
    }
  }

  lemma {:induction false} PutCounts(bs: seq<Block>, key: string, new_: Lines, k: string)
    requires new_ != [] ==> KeyOf(new_[0]) == Some(key)
    ensures k != key ==> Count(Put(bs, key, new_), k) == Count(bs, k)
    ensures Count(Put(bs, key, new_), key) ==
      (if Count(bs, key) == 0 then 0 else Count(bs, key) - 1) + if new_ == [] then 0 else 1
  {
    hide KeyOf;
    var after := Put(bs, key, new_);
    if bs == [] {
      assert new_ != [] ==> after[1..] == [];
    } else if KeyOf(bs[0][0]) == Some(key) {
      assert after == if new_ == [] then bs[1..] else [new_] + bs[1..];
    } else {
      PutCounts(bs[1..], key, new_, k);
      assert after[1..] == Put(bs[1..], key, new_);
    }
  }

  // --- whose value a continuation line is ---------------------------------------------------------

  /** The continuation lines that belong to another key than `key`, each with its owner: the last key above it.
      An empty line or a comment starts a block of its own but does not end the value of the key above. */
  function OwnedByOthers(fm: Lines, owner: Option<string>, key: string): seq<(Option<string>, string)> {
    if fm == [] then []
    else if Continues(fm[0]) then
      (if owner == Some(key) then [] else [(owner, fm[0])]) + OwnedByOthers(fm[1..], owner, key)
    else
      OwnedByOthers(fm[1..], if KeyOf(fm[0]).Some? then KeyOf(fm[0]) else owner, key)
  }

  /** Continuation lines before the next key. */
  function Strays(fm: Lines): nat {
    if fm == [] || KeyOf(fm[0]).Some? then 0
    else (if Continues(fm[0]) then 1 else 0) + Strays(fm[1..])
  }

  /** Continuation lines of `key` that an empty line or a comment separates from its block. */
  function StraysOf(fm: Lines, key: string): nat {
    if fm == [] then 0
    else if Matches(key, fm[0]) then Strays(fm[1 + Run(fm[1..])..])
    else StraysOf(fm[1..], key)
  }

  lemma {:induction false} RunIsOwned(fm: Lines, key: string)
    ensures OwnedByOthers(fm, Some(key), key) == OwnedByOthers(fm[Run(fm)..], Some(key), key)
  {
    if fm != [] && Continues(fm[0]) {
      RunIsOwned(fm[1..], key);
      assert fm[Run(fm)..] == fm[1..][Run(fm[1..])..];
    }
  }

  lemma {:induction false} StraysChangeOwner(fm: Lines, owner: Option<string>, key: string)
    requires owner != Some(key)
    ensures |OwnedByOthers(fm, owner, key)| == |OwnedByOthers(fm, Some(key), key)| + Strays(fm)
    ensures Strays(fm) == 0 ==> OwnedByOthers(fm, owner, key) == OwnedByOthers(fm, Some(key), key)
  {
    if fm != [] {
      if Continues(fm[0]) {
        ContinuationHasNoKey(fm[0]);
      }
      if KeyOf(fm[0]).None? {
        StraysChangeOwner(fm[1..], owner, key);
      }
    }
  }

  /** No continuation line attaches to a different key, exactly when the update writes a line or the key's
      value is not cut by an empty line or a comment. */
  lemma {:induction false} OwnersKept(fm: Lines, owner: Option<string>, key: string, new_: Lines)
    requires PlainKey(key) && NewBlock(new_) && owner != Some(key)
    requires new_ != [] ==> KeyOf(new_[0]) == Some(key)
    ensures OwnedByOthers(Splice(fm, key, new_), owner, key) == OwnedByOthers(fm, owner, key)
      <==> new_ != [] || StraysOf(fm, key) == 0
  {
    if fm != [] {
      MatchesIsKeyOf(key, fm[0]);
      if Matches(key, fm[0]) {
        if Continues(fm[0]) {
          ContinuationHasNoKey(fm[0]);
          assert false;
        }
        var rest := fm[1 + Run(fm[1..])..];
        RunIsOwned(fm[1..], key);
        assert rest == fm[1..][Run(fm[1..])..];
        StraysChangeOwner(rest, owner, key);
        if new_ == [] {
          assert new_ + rest == rest;
        } else {
          assert (new_ + rest)[1..] == rest;
        }
      } else {
        var owner' := if Continues(fm[0]) || KeyOf(fm[0]).None? then owner else KeyOf(fm[0]);
        OwnersKept(fm[1..], owner', key, new_);
        assert Splice(fm, key, new_)[1..] == Splice(fm[1..], key, new_);
        var was, now := OwnedByOthers(fm[1..], owner', key), OwnedByOthers(Splice(fm[1..], key, new_), owner', key);
        assert ([(owner, fm[0])] + was)[1..] == was && ([(owner, fm[0])] + now)[1..] == now;
      }
    }
  }

  // --- all updates of a call ----------------------------------------------------------------------

  /** An item behind an empty line: when its key is removed, it attaches to the key above. */
  lemma StrayItem(above: string, own: string, item: string, other: string, key: string)
    requires PlainKey(key) && other != key && KeyOf(above) == Some(other) && KeyOf(own) == Some(key) && Continues(item)
    ensures var fm := [above, own, "", item];
      && OwnedByOthers(fm, None, key) == []
      && Splice(fm, key, []) == [above, "", item]
      && OwnedByOthers(Splice(fm, key, []), None, key) == [(Some(other), item)]
  {
    hide KeyOf, Matches, PlainKey;
    var fm := [above, own, "", item];
    MatchesIsKeyOf(key, above);
    MatchesIsKeyOf(key, own);
    NoKeyHere(above, own, item);
    assert fm[1..] == [own, "", item] && fm[1..][1..] == ["", item] && ["", item][1..] == [item] && [item][1..] == [];
    assert [above, "", item][1..] == ["", item];
    assert OwnedByOthers([], Some(key), key) == [] && OwnedByOthers([], Some(other), key) == [];
    assert OwnedByOthers([item], Some(key), key) == [];
    assert OwnedByOthers([item], Some(other), key) == [(Some(other), item)];
    assert OwnedByOthers(["", item], Some(key), key) == [];
    assert OwnedByOthers(["", item], Some(other), key) == [(Some(other), item)];
    assert OwnedByOthers([own, "", item], Some(other), key) == [];
  }

  lemma NoKeyHere(above: string, own: string, item: string)
    requires KeyOf(above).Some? && KeyOf(own).Some?
    ensures KeyOf("") == None && !Continues("")
    ensures !Continues(above) && !Continues(own)
  {
    hide KeyOf;
    if Continues(above) {
      ContinuationHasNoKey(above);
    }
    if Continues(own) {
      ContinuationHasNoKey(own);
    }
    assert KeyOf("") == None by { EmptyHasNoKey(); }
  }

  lemma EmptyHasNoKey()
    ensures KeyOf("") == None
  {
  }

  /** One entry of the `updates` dictionary: the value as `_scalar` renders it, or None to remove the key. */
  datatype Field = Field(key: string, value: Option<string>) {
    function NewLines(): Lines {
      if value.None? then [] else [key + ": " + value.value]
    }

    predicate Writable() {
      PlainKey(key) && (value.Some? ==> OneLine(value.value))
    }
  }

  /** A dictionary: no key twice. */
  predicate Dict(updates: seq<Field>) {
    && (forall i | 0 <= i < |updates| :: updates[i].Writable())
    && (forall i, j | 0 <= i < j < |updates| :: updates[i].key != updates[j].key)
  }

  function SpliceAll(fm: Lines, updates: seq<Field>): Lines
    decreases |updates|
  {
    if updates == [] then fm
    else SpliceAll(Splice(fm, updates[0].key, updates[0].NewLines()), updates[1..])
  }

  function PutAll(bs: seq<Block>, updates: seq<Field>): seq<Block>
    decreases |updates|
  {
    if updates == [] then bs
    else PutAll(Put(bs, updates[0].key, updates[0].NewLines()), updates[1..])
  }

  /** The update of the map a frontmatter stands for. */
  function UpdateMap(m: map<string, Lines>, updates: seq<Field>): map<string, Lines>
    decreases |updates|
  {
    if updates == [] then m
    else
      var u := updates[0];
      UpdateMap(if u.value.None? then m - {u.key} else m[u.key := u.NewLines()], updates[1..])
  }

  lemma NewLinesKey(u: Field)
    requires u.Writable()
    ensures NewBlock(u.NewLines()) && AllOneLine(u.NewLines())
    ensures u.value.Some? ==> KeyOf(u.NewLines()[0]) == Some(u.key)
  {
    if u.value.Some? {
      var line := u.NewLines()[0];
      assert line[..|u.key|] == u.key;
      assert line[|u.key|..][0] == ':';
      MatchesIsKeyOf(u.key, line);
      assert line[0] == u.key[0];
      assert IsSpace(' ') && IsSpace('\t') && IsSpace('\n');
    }
  }

  lemma {:induction false} SpliceAllIsPutAll(fm: Lines, updates: seq<Field>)
    requires Dict(updates)
    ensures Blocks(SpliceAll(fm, updates)) == PutAll(Blocks(fm), updates)
    decreases |updates|
  {
    if updates != [] {
      NewLinesKey(updates[0]);
      SpliceIsPut(fm, updates[0].key, updates[0].NewLines());
      SpliceAllIsPutAll(Splice(fm, updates[0].key, updates[0].NewLines()), updates[1..]);
    }
  }

  /** No updated key is given twice. */
  predicate KeysUnique(bs: seq<Block>, updates: seq<Field>) {
    forall i | 0 <= i < |updates| :: Count(bs, updates[i].key) <= 1
  }

  lemma KeysStayUnique(bs: seq<Block>, updates: seq<Field>)
    requires updates != [] && Dict(updates) && KeysUnique(bs, updates)
    ensures KeysUnique(Put(bs, updates[0].key, updates[0].NewLines()), updates[1..]) && Dict(updates[1..])
  {
    var u := updates[0];
    NewLinesKey(u);
    forall i | 0 <= i < |updates| - 1
      ensures Count(Put(bs, u.key, u.NewLines()), updates[1..][i].key) <= 1
    {
      assert updates[1..][i] == updates[i + 1];
      PutCounts(bs, u.key, u.NewLines(), updates[i + 1].key);
    }
  }

  /** `set_fields` refines a map update. */
  lemma {:induction false} PutAllIsUpdateMap(bs: seq<Block>, updates: seq<Field>)
    requires Dict(updates) && KeysUnique(bs, updates)
    ensures AsMap(PutAll(bs, updates)) == UpdateMap(AsMap(bs), updates)
    decreases |updates|
  {
    if updates != [] {
      var u := updates[0];
      NewLinesKey(u);
      PutIsMapUpdate(bs, u.key, u.NewLines());
      KeysStayUnique(bs, updates);
      PutAllIsUpdateMap(Put(bs, u.key, u.NewLines()), updates[1..]);
    }
  }

  lemma {:induction false} UpdateMapAt(m: map<string, Lines>, updates: seq<Field>, key: string)
    requires Dict(updates)
    ensures (forall i | 0 <= i < |updates| :: updates[i].key != key) ==>
      (key in UpdateMap(m, updates) <==> key in m) && (key in m ==> UpdateMap(m, updates)[key] == m[key])
    ensures forall i | 0 <= i < |updates| && updates[i].key == key ::
      && (key in UpdateMap(m, updates) <==> updates[i].value.Some?)
      && (updates[i].value.Some? ==> UpdateMap(m, updates)[key] == updates[i].NewLines())
    decreases |updates|
  {
    hide PlainKey;
    if updates != [] {
      var u := updates[0];
      var m' := if u.value.None? then m - {u.key} else m[u.key := u.NewLines()];
      assert forall i | 0 < i < |updates| :: updates[i] == updates[1..][i - 1];
      UpdateMapAt(m', updates[1..], key);
    }
  }

  // --- set_fields on a text -----------------------------------------------------------------------

  function FieldsSet(text: string, updates: seq<Field>): string {
    var lines := Split(text);
    var fm := SpliceAll(Front(lines), updates);
    if AllBlank(fm) then Join(DropBlank(Body(lines)))
    else Join(["---"] + fm + ["---"] + Body(lines))
  }

  lemma SpliceHere(fm: Lines, key: string, new_: Lines, stop: nat)
    requires 0 < stop <= |fm| && Matches(key, fm[0])
    requires forall i | 0 < i < stop :: Continues(fm[i])
    requires stop < |fm| ==> !Continues(fm[stop])
    ensures Splice(fm, key, new_) == new_ + fm[stop..]
  {
    hide Matches, Continues;
    var run, rest := fm[1..stop], fm[stop..];
    assert fm[1..] == run + rest;
    RunConcat(run, rest);
  }

  lemma SpliceNothing(key: string, new_: Lines)
    ensures Splice([], key, new_) == new_
  {
  }

  lemma SpliceAt(fm: Lines, key: string, new_: Lines, start: nat, stop: nat)
    requires start <= |fm| && forall i | 0 <= i < start :: !Matches(key, fm[i])
    requires start < |fm| ==>
      && Matches(key, fm[start]) && start < stop <= |fm|
      && (forall i | start < i < stop :: Continues(fm[i])) && (stop < |fm| ==> !Continues(fm[stop]))
    ensures Splice(fm, key, new_) == if start == |fm| then fm + new_ else fm[..start] + new_ + fm[stop..]
  {
    hide Matches, Continues, Splice;
    var x := fm[start..];
    SplicePast(fm[..start], x, key, new_);
    assert fm == fm[..start] + x;
    if start < |fm| {
      SpliceHere(x, key, new_, stop - start);
      assert x[stop - start..] == fm[stop..];
      assert fm[..start] + (new_ + fm[stop..]) == fm[..start] + new_ + fm[stop..];
    } else {
      assert x == [] && fm[..start] == fm;
      SpliceNothing(key, new_);
    }
  }

  /** `set_fields` */
  method SetFields(text: string, updates: seq<Field>) returns (r: string)
    ensures r == FieldsSet(text, updates)
  {
    var lines := Split(text);
    var end := End(lines);
    var fm, rest := [], lines;
    if end.Some? {
      fm, rest := lines[1..end.value], lines[end.value + 1..];
    }
    for u := 0 to |updates|
      invariant SpliceAll(fm, updates[u..]) == SpliceAll(Front(lines), updates)
    {
      var key, new_ := updates[u].key, updates[u].NewLines();
      ghost var was := fm;
      var start := 0;
      while start < |fm| && !Matches(key, fm[start])
        invariant start <= |fm| && forall i | 0 <= i < start :: !Matches(key, fm[i])
      {
        start := start + 1;
      }
      var stop := start + 1;
      if start == |fm| {
        fm := fm + new_;
      } else {
        while stop < |fm| && Continues(fm[stop])
          invariant start < stop <= |fm| && forall i | start < i < stop :: Continues(fm[i])
        {
          stop := stop + 1;
        }
        fm := fm[..start] + new_ + fm[stop..];
      }
      SpliceAt(was, key, new_, start, stop);
      assert updates[u..][1..] == updates[u + 1..];
    }
    assert updates[|updates|..] == [];
    if AllBlank(fm) {
      while rest != [] && Blank(rest[0])
        invariant DropBlank(rest) == DropBlank(Body(lines))
      {
        rest := rest[1..];
      }
      return Join(rest);
    }
    r := Join(["---"] + fm + ["---"] + rest);
  }

  lemma {:induction false} StripKeeps(s: string, c: char)
    requires c in s && !IsSpace(c)
    ensures c in LStrip(s) && c in RStrip(s)
  {
    if s != "" {
      if IsSpace(s[0]) {
        StripKeeps(s[1..], c);
      }
      if IsSpace(s[|s| - 1]) {
        StripKeeps(s[..|s| - 1], c);
      }
    }
  }

  lemma NewLinesNoDelimiter(u: Field)
    ensures NoDelimiter(u.NewLines())
  {
    if u.value.Some? {
      var line := u.NewLines()[0];
      assert line[|u.key|] == ':';
      StripKeeps(line, ':');
      StripKeeps(LStrip(line), ':');
    }
  }

  /** What holds of every line, of the frontmatter and of the new ones, holds of every line after the update. */
  lemma {:induction false} SpliceKeeps(fm: Lines, key: string, new_: Lines)
    ensures NoDelimiter(fm) && NoDelimiter(new_) ==> NoDelimiter(Splice(fm, key, new_))
    ensures AllOneLine(fm) && AllOneLine(new_) ==> AllOneLine(Splice(fm, key, new_))
  {
    if fm != [] && !Matches(key, fm[0]) {
      SpliceKeeps(fm[1..], key, new_);
    }
  }

  lemma {:induction false} SpliceAllKeeps(fm: Lines, updates: seq<Field>)
    requires Dict(updates)
    ensures NoDelimiter(fm) ==> NoDelimiter(SpliceAll(fm, updates))
    ensures AllOneLine(fm) ==> AllOneLine(SpliceAll(fm, updates))
    decreases |updates|
  {
    if updates != [] {
      NewLinesNoDelimiter(updates[0]);
      NewLinesKey(updates[0]);
      SpliceKeeps(fm, updates[0].key, updates[0].NewLines());
      SpliceAllKeeps(Splice(fm, updates[0].key, updates[0].NewLines()), updates[1..]);
    }
  }

  lemma FrontIsFramed(text: string)
    ensures NoDelimiter(Front(Split(text))) && AllOneLine(Front(Split(text))) && AllOneLine(Body(Split(text)))
  {
  }

  /** Whether a frontmatter is left after the update; if not, the delimiters go too. */
  predicate StaysFramed(text: string, updates: seq<Field>) {
    !AllBlank(SpliceAll(Front(Split(text)), updates))
  }

  /** The updated text is read back with exactly the updated frontmatter, and its body is unchanged. */
  lemma FieldsSetParts(text: string, updates: seq<Field>)
    requires Dict(updates) && StaysFramed(text, updates)
    ensures var after := Split(FieldsSet(text, updates));
      var fm := SpliceAll(Front(Split(text)), updates);
      && after == ["---"] + fm + ["---"] + Body(Split(text))
      && End(after).Some? && Prefix(after) == ["---"] + fm + ["---"]
      && Front(after) == fm && Body(after) == Body(Split(text))
  {
    var fm := SpliceAll(Front(Split(text)), updates);
    FrontIsFramed(text);
    SpliceAllKeeps(Front(Split(text)), updates);
    SplitJoin(["---"] + fm + ["---"] + Body(Split(text)));
    Framed("---", fm, "---", Body(Split(text)));
  }

  /** The top-level fields of a text, each with its lines. */
  function FieldMap(text: string): map<string, Lines> {
    AsMap(Blocks(Front(Split(text))))
  }

  predicate FieldsUnique(text: string, updates: seq<Field>) {
    KeysUnique(Blocks(Front(Split(text))), updates)
  }

  /** `set_fields` is a map update of the fields that leaves the body alone. */
  lemma FieldsSetUpdates(text: string, updates: seq<Field>)
    requires Dict(updates) && StaysFramed(text, updates) && FieldsUnique(text, updates)
    ensures FieldMap(FieldsSet(text, updates)) == UpdateMap(FieldMap(text), updates)
    ensures Body(Split(FieldsSet(text, updates))) == Body(Split(text))
  {
    FieldsSetParts(text, updates);
    SpliceAllIsPutAll(Front(Split(text)), updates);
    PutAllIsUpdateMap(Blocks(Front(Split(text))), updates);
  }

  // --- applying an update twice -------------------------------------------------------------------

  function Flat(bs: seq<Block>): Lines {
    if bs == [] then [] else bs[0] + Flat(bs[1..])
  }

  lemma FlatCons(b: Block, bs: seq<Block>)
    ensures Flat([b] + bs) == b + Flat(bs)
  {
    assert ([b] + bs)[1..] == bs;
  }

  lemma {:induction false} FlatBlocks(fm: Lines)
    ensures Flat(Blocks(fm)) == fm
    decreases |fm|
  {
    hide Run, Flat, Continues;
    if fm == [] {
      assert Flat([]) == [] by { FlatNil(); }
    } else {
      var e := 1 + Run(fm[1..]);
      FlatBlocks(fm[e..]);
      FlatCons(fm[..e], Blocks(fm[e..]));
      assert fm[..e] + fm[e..] == fm;
    }
  }

  lemma FlatNil()
    ensures Flat([]) == []
  {
  }

  lemma {:induction false} PutPresent(bs: seq<Block>, key: string, new_: Lines)
    requires if new_ == [] then Count(bs, key) == 0 else key in AsMap(bs) && AsMap(bs)[key] == new_
    ensures Put(bs, key, new_) == bs
  {
    hide KeyOf;
    if bs != [] {
      var b, rest := bs[0], bs[1..];
      assert bs == [b] + rest;
      if KeyOf(b[0]) != Some(key) {
        PutPresent(rest, key, new_);
      }
    }
  }

  lemma {:induction false} PutAllPresent(bs: seq<Block>, updates: seq<Field>)
    requires forall i | 0 <= i < |updates| ::
      if updates[i].value.None? then Count(bs, updates[i].key) == 0
      else updates[i].key in AsMap(bs) && AsMap(bs)[updates[i].key] == updates[i].NewLines()
    ensures PutAll(bs, updates) == bs
    decreases |updates|
  {
    if updates != [] {
      PutPresent(bs, updates[0].key, updates[0].NewLines());
      PutAllPresent(bs, updates[1..]);
    }
  }

  lemma SpliceAllTwice(fm: Lines, updates: seq<Field>)
    requires Dict(updates) && KeysUnique(Blocks(fm), updates)
    ensures SpliceAll(SpliceAll(fm, updates), updates) == SpliceAll(fm, updates)
  {
    var once := SpliceAll(fm, updates);
    SpliceAllIsPutAll(fm, updates);
    PutAllIsUpdateMap(Blocks(fm), updates);
    forall i | 0 <= i < |updates|
      ensures if updates[i].value.None? then Count(Blocks(once), updates[i].key) == 0
        else updates[i].key in AsMap(Blocks(once)) && AsMap(Blocks(once))[updates[i].key] == updates[i].NewLines()
    {
      UpdateMapAt(AsMap(Blocks(fm)), updates, updates[i].key);
      CountedInMap(Blocks(once), updates[i].key);
    }
    PutAllPresent(Blocks(once), updates);
    SpliceAllIsPutAll(once, updates);
    FlatBlocks(once);
    FlatBlocks(SpliceAll(once, updates));
  }

  /** Applying the same update twice equals applying it once. */
  lemma FieldsSetTwice(text: string, updates: seq<Field>)
    requires Dict(updates) && StaysFramed(text, updates) && FieldsUnique(text, updates)
    ensures FieldsSet(FieldsSet(text, updates), updates) == FieldsSet(text, updates)
  {
    FieldsSetParts(text, updates);
    SpliceAllTwice(Front(Split(text)), updates);
  }

  // --- claim fields and release fields ------------------------------------------------------------

  function ClaimFields(who: string, stamp: string): seq<Field> {
    [Field("claimed-by", Some(who)), Field("claimed-at", Some(stamp))]
  }

  function ReleaseFields(): seq<Field> {
    [Field("claimed-by", None), Field("claimed-at", None)]
  }

  lemma ClaimKeys()
    ensures PlainKey("claimed-by") && PlainKey("claimed-at") && "claimed-by" != "claimed-at"
  {
    assert "claimed-by"[8] != "claimed-at"[8];
  }

  lemma ClaimIsDict(who: string, stamp: string)
    requires OneLine(who) && OneLine(stamp)
    ensures Dict(ClaimFields(who, stamp)) && Dict(ReleaseFields())
    ensures PlainKey("claimed-by") && PlainKey("claimed-at") && "claimed-by" != "claimed-at"
  {
    hide PlainKey, OneLine;
    ClaimKeys();
  }

  /** No line of the frontmatter sets a claim field. */
  predicate Unclaimed(text: string) {
    NoMatch(Front(Split(text)), "claimed-by") && NoMatch(Front(Split(text)), "claimed-at")
  }

  predicate NoMatch(fm: Lines, key: string) {
    forall i | 0 <= i < |fm| :: !Matches(key, fm[i])
  }

  lemma SpliceAppends(fm: Lines, u: Field)
    requires NoMatch(fm, u.key)
    ensures Splice(fm, u.key, u.NewLines()) == fm + u.NewLines()
  {
    SplicePast(fm, [], u.key, u.NewLines());
    assert fm + [] == fm;
  }

  lemma SpliceRemoves(fm: Lines, u: Field, rest: Lines)
    requires u.Writable() && u.value.Some? && NoMatch(fm, u.key) && StartsBlock(rest)
    ensures Splice(fm + u.NewLines() + rest, u.key, []) == fm + rest
  {
    NewLinesKey(u);
    MatchesIsKeyOf(u.key, u.NewLines()[0]);
    var x := u.NewLines() + rest;
    assert fm + u.NewLines() + rest == fm + x;
    SplicePast(fm, x, u.key, []);
    assert x[1..] == rest;
    assert [] + rest[0..] == rest;
  }

  lemma SpliceAllTwo(fm: Lines, a: Field, b: Field)
    ensures SpliceAll(fm, [a, b]) == Splice(Splice(fm, a.key, a.NewLines()), b.key, b.NewLines())
  {
    var one := Splice(fm, a.key, a.NewLines());
    var two := Splice(one, b.key, b.NewLines());
    assert [a, b][1..] == [b] && [b][1..] == [];
    assert SpliceAll(two, []) == two;
    assert SpliceAll(one, [b]) == two;
  }

  /** Two new fields are appended, and removing them again leaves the lines as they were. */
  lemma AddThenRemove(fm: Lines, a: Field, b: Field)
    requires a.Writable() && b.Writable() && a.value.Some? && b.value.Some? && a.key != b.key
    requires NoMatch(fm, a.key) && NoMatch(fm, b.key)
    ensures SpliceAll(fm, [a, b]) == fm + a.NewLines() + b.NewLines()
    ensures SpliceAll(fm + a.NewLines() + b.NewLines(), [Field(a.key, None), Field(b.key, None)]) == fm
  {
    hide Splice, SpliceAll, Matches, KeyOf, PlainKey, Continues;
    NewLinesKey(a);
    NewLinesKey(b);
    MatchesIsKeyOf(b.key, a.NewLines()[0]);
    SpliceAppends(fm, a);
    SpliceAppends(fm + a.NewLines(), b);
    SpliceAllTwo(fm, a, b);
    SpliceAllTwo(fm + a.NewLines() + b.NewLines(), Field(a.key, None), Field(b.key, None));
    SpliceRemoves(fm, a, b.NewLines());
    SpliceRemoves(fm, b, []);
    assert fm + b.NewLines() + [] == fm + b.NewLines();
    assert fm + [] == fm;
  }

  lemma JoinSuffix(lines: Lines, k: nat)
    requires 0 < k <= |lines| && Join(lines) != ""
    ensures |Join(lines[k..])| < |Join(lines)|
  {
    if k < |lines| {
      assert lines == lines[..k] + lines[k..];
      JoinConcat(lines[..k], lines[k..]);
    }
  }

  /** What a caller can look at: a non-blank frontmatter between plain `---` lines, or no frontmatter and no
      leading blank line. */
  predicate Tidy(text: string) {
    var lines := Split(text);
    var end := End(lines);
    if end.Some? then !AllBlank(Front(lines)) && lines[0] == "---" && lines[end.value] == "---"
    else text == "" || !Blank(lines[0])
  }

  lemma AddThenRemoveText(text: string, a: Field, b: Field)
    requires a.Writable() && b.Writable() && a.value.Some? && b.value.Some? && a.key != b.key
    requires NoMatch(Front(Split(text)), a.key) && NoMatch(Front(Split(text)), b.key)
    ensures var lines := Split(text);
      FieldsSet(FieldsSet(text, [a, b]), [Field(a.key, None), Field(b.key, None)]) ==
      if AllBlank(Front(lines)) then Join(DropBlank(Body(lines)))
      else Join(["---"] + Front(lines) + ["---"] + Body(lines))
  {
    var fm := Front(Split(text));
    AddThenRemove(fm, a, b);
    var claimed := fm + a.NewLines() + b.NewLines();
    assert !Blank(claimed[|fm|]) by {
      assert claimed[|fm|] == a.key + ": " + a.value.value;
      assert claimed[|fm|][0] == a.key[0];
    }
    FieldsSetParts(text, [a, b]);
  }

  lemma FramedAgain(text: string)
    requires !AllBlank(Front(Split(text)))
    ensures var lines := Split(text);
      Join(["---"] + Front(lines) + ["---"] + Body(lines)) == text <==> Tidy(text)
  {
    hide Delimiter, NoDelimiter, Blank;
    var lines := Split(text);
    var fm, rest := Front(lines), Body(lines);
    var framed := ["---"] + fm + ["---"] + rest;
    FrontIsFramed(text);
    JoinSplit(text);
    SplitJoin(framed);
    assert framed[0] == "---" && framed[|fm| + 1] == "---";
    Reassemble(lines);
  }

  lemma BodyAgain(text: string)
    requires AllBlank(Front(Split(text)))
    ensures Join(DropBlank(Body(Split(text)))) == text <==> Tidy(text)
  {
    hide Delimiter, NoDelimiter, Blank, Join, DropBlank, Split;
    var lines := Split(text);
    JoinSplit(text);
    if text == "" {
      SplitOneLine("");
      EmptyBody();
    } else {
      var j := DropBlankDrops(Body(lines));
      var k := |lines| - |Body(lines)| + j;
      assert Body(lines)[j..] == lines[k..];
      if k > 0 {
        JoinSuffix(lines, k);
        assert End(lines).None? ==> Blank(lines[..k][0]);
      } else {
        assert lines[0..] == lines;
      }
    }
  }

  lemma EmptyBody()
    ensures Join(DropBlank([""])) == ""
  {
    assert [""][1..] == [];
  }

  /** Claiming and releasing gives back the text of an unclaimed issue, exactly when the text is tidy. */
  lemma ClaimReleaseIdentity(text: string, who: string, stamp: string)
    requires OneLine(who) && OneLine(stamp) && Unclaimed(text)
    ensures FieldsSet(FieldsSet(text, ClaimFields(who, stamp)), ReleaseFields()) == text <==> Tidy(text)
  {
    ClaimIsDict(who, stamp);
    AddThenRemoveText(text, ClaimFields(who, stamp)[0], ClaimFields(who, stamp)[1]);
    if AllBlank(Front(Split(text))) {
      BodyAgain(text);
    } else {
      FramedAgain(text);
    }
  }

  /** A text that opens with an empty line is not given back: the release drops that line. */
  lemma LeadingBlankIsLost(title: string, who: string, stamp: string)
    requires OneLine(title) && OneLine(who) && OneLine(stamp)
    ensures FieldsSet(FieldsSet("\n" + title, ClaimFields(who, stamp)), ReleaseFields()) != "\n" + title
  {
    hide ClaimFields, ReleaseFields, FieldsSet, Split, Matches;
    SplitPrepend("", title);
    SplitOneLine(title);
    assert "" + "\n" + title == "\n" + title;
    assert !Delimiter("") by { EmptyIsNoDelimiter(); }
    ClaimReleaseIdentity("\n" + title, who, stamp);
  }

  lemma EmptyIsNoDelimiter()
    ensures !Delimiter("")
  {
  }
}
