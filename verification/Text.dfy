/** Text as the tools handle it: Python strings split on newlines, stripped and joined again. */
module Text {

  datatype Option<+T> = None | Some(value: T)

  type Lines = seq<string>

  /** `str.isspace`, which `str.strip` and the regex class `\s` share. */
  predicate IsSpace(c: char) {
    var n := c as int;
    || 9 <= n <= 13 || 28 <= n <= 32 || n == 0x85 || n == 0xA0 || n == 0x1680
    || 0x2000 <= n <= 0x200A || n == 0x2028 || n == 0x2029 || n == 0x202F || n == 0x205F || n == 0x3000
  }

  /** `not s.strip()` */
  predicate Blank(s: string) {
    forall i | 0 <= i < |s| :: IsSpace(s[i])
  }

  predicate OneLine(s: string) {
    '\n' !in s
  }

  predicate AllOneLine(lines: Lines) {
    forall i | 0 <= i < |lines| :: OneLine(lines[i])
  }

  predicate AllBlank(lines: Lines) {
    forall i | 0 <= i < |lines| :: Blank(lines[i])
  }

  /** `part in s` */
  predicate Contains(s: string, part: string) {
    part <= s || (s != "" && Contains(s[1..], part))
  }

  function LStrip(s: string): string {
    if s == "" || !IsSpace(s[0]) then s else LStrip(s[1..])
  }

  function RStrip(s: string): string {
    if s == "" || !IsSpace(s[|s| - 1]) then s else RStrip(s[..|s| - 1])
  }

  function Strip(s: string): string {
    RStrip(LStrip(s))
  }

  lemma {:induction false} LStripIs(s: string) returns (a: string)
    ensures Blank(a) && s == a + LStrip(s)
  {
    hide IsSpace;
    if s == "" || !IsSpace(s[0]) {
      a := "";
    } else {
      var more := LStripIs(s[1..]);
      a := [s[0]] + more;
      assert s == [s[0]] + s[1..];
    }
  }

  lemma {:induction false} RStripIs(s: string) returns (b: string)
    ensures Blank(b) && s == RStrip(s) + b
  {
    hide IsSpace;
    if s == "" || !IsSpace(s[|s| - 1]) {
      b := "";
    } else {
      var n := |s| - 1;
      var more := RStripIs(s[..n]);
      b := more + [s[n]];
      assert s == s[..n] + [s[n]];
    }
  }

  lemma {:induction false} LStripPadded(a: string, s: string)
    requires Blank(a) && (s != "" ==> !IsSpace(s[0]))
    ensures LStrip(a + s) == s
  {
    hide IsSpace;
    if a == "" {
      assert a + s == s;
    } else {
      LStripPadded(a[1..], s);
      assert (a + s)[1..] == a[1..] + s;
    }
  }

  lemma {:induction false} RStripPadded(s: string, b: string)
    requires Blank(b) && (s != "" ==> !IsSpace(s[|s| - 1]))
    ensures RStrip(s + b) == s
  {
    hide IsSpace;
    if b == "" {
      assert s + b == s;
    } else {
      var n := |b| - 1;
      RStripPadded(s, b[..n]);
      assert (s + b)[..|s| + n] == s + b[..n];
    }
  }

  /** The word, with nothing but whitespace around it. */
  ghost predicate Padded(s: string, word: string) {
    exists a, b :: Blank(a) && Blank(b) && s == a + word + b
  }

  /** Stripping gives exactly the word between the whitespace. */
  lemma StripIs(s: string, word: string)
    requires word != "" && !IsSpace(word[0]) && !IsSpace(word[|word| - 1])
    ensures Strip(s) == word <==> Padded(s, word)
  {
    hide IsSpace, LStrip, RStrip, Blank;
    if Strip(s) == word {
      var a := LStripIs(s);
      var b := RStripIs(LStrip(s));
      assert s == a + word + b;
    }
    if Padded(s, word) {
      var a, b :| Blank(a) && Blank(b) && s == a + word + b;
      assert s == a + (word + b);
      LStripPadded(a, word + b);
      RStripPadded(word, b);
    }
  }

  /** `s.split("\n")` */
  function Split(s: string): (lines: Lines)
    ensures |lines| > 0 && AllOneLine(lines)
  {
    if s == "" then [""]
    else
      var tail := Split(s[1..]);
      if s[0] == '\n' then [""] + tail else [[s[0]] + tail[0]] + tail[1..]
  }

  /** `"\n".join(lines)` */
  function Join(lines: Lines): string {
    if lines == [] then ""
    else if |lines| == 1 then lines[0]
    else lines[0] + "\n" + Join(lines[1..])
  }

  lemma {:induction false} JoinSplit(s: string)
    ensures Join(Split(s)) == s
  {
    if s != "" {
      JoinSplit(s[1..]);
      var tail := Split(s[1..]);
      if s[0] == '\n' {
        assert Split(s)[1..] == tail;
        assert s == "" + "\n" + s[1..];
      } else {
        var all := [[s[0]] + tail[0]] + tail[1..];
        assert all[1..] == tail[1..];
        assert s == [s[0]] + s[1..];
      }
    }
  }

  lemma {:induction false} SplitPrepend(line: string, rest: string)
    requires OneLine(line)
    ensures Split(line + "\n" + rest) == [line] + Split(rest)
  {
    var s := line + "\n" + rest;
    if line == "" {
      assert s[1..] == rest;
    } else {
      SplitPrepend(line[1..], rest);
      assert s[1..] == line[1..] + "\n" + rest;
      assert line == [line[0]] + line[1..];
    }
  }

  lemma {:induction false} SplitOneLine(line: string)
    requires OneLine(line)
    ensures Split(line) == [line]
  {
    if line != "" {
      SplitOneLine(line[1..]);
      assert line == [line[0]] + line[1..];
    }
  }

  lemma {:induction false} SplitJoin(lines: Lines)
    requires lines != [] && AllOneLine(lines)
    ensures Split(Join(lines)) == lines
  {
    if |lines| == 1 {
      SplitOneLine(lines[0]);
    } else {
      SplitJoin(lines[1..]);
      SplitPrepend(lines[0], Join(lines[1..]));
    }
  }

  lemma JoinOne(line: string)
    ensures Join([line]) == line
  {
  }

  lemma {:induction false} JoinConcat(a: Lines, b: Lines)
    requires a != [] && b != []
    ensures Join(a + b) == Join(a) + "\n" + Join(b)
  {
    assert (a + b)[1..] == a[1..] + b;
    if |a| > 1 {
      JoinConcat(a[1..], b);
    }
  }

  /** Drops leading whitespace-only lines. */
  function DropBlank(lines: Lines): Lines {
    if lines == [] || !Blank(lines[0]) then lines else DropBlank(lines[1..])
  }

  lemma {:induction false} DropBlankDrops(lines: Lines) returns (k: nat)
    ensures k <= |lines| && DropBlank(lines) == lines[k..] && AllBlank(lines[..k])
    ensures k < |lines| ==> !Blank(lines[k])
  {
    if lines == [] || !Blank(lines[0]) {
      k := 0;
    } else {
      var j := DropBlankDrops(lines[1..]);
      k := j + 1;
      assert lines[..k] == [lines[0]] + lines[1..][..j];
    }
  }

  /** Drops trailing whitespace-only lines. */
  function PopBlank(lines: Lines): Lines {
    if lines == [] || !Blank(lines[|lines| - 1]) then lines else PopBlank(lines[..|lines| - 1])
  }

  lemma {:induction false} PopBlankPops(lines: Lines) returns (k: nat)
    ensures k <= |lines| && PopBlank(lines) == lines[..k] && AllBlank(lines[k..])
    ensures k > 0 ==> !Blank(lines[k - 1])
  {
    if lines == [] || !Blank(lines[|lines| - 1]) {
      k := |lines|;
    } else {
      var init := lines[..|lines| - 1];
      k := PopBlankPops(init);
      assert lines[k..] == init[k..] + [lines[|lines| - 1]];
      assert init[..k] == lines[..k];
    }
  }
}
