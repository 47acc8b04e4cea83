/** The text a `github-files` pin hashes: `files_pin` of extern/deps_manifest.py. */
module FilesPin {
  import opened Text

  datatype Listed = Listed(path: string, sha256: string)

  /** One `<path> <sha256>` line per file, in order. */
  function PinText(files: seq<Listed>): string {
    if files == [] then "" else files[0].path + " " + files[0].sha256 + "\n" + PinText(files[1..])
  }

  /** Paths of one line, digests of one word. */
  predicate Encodable(files: seq<Listed>) {
    forall i | 0 <= i < |files| ::
      '\n' !in files[i].path && '\n' !in files[i].sha256 && ' ' !in files[i].sha256
  }

  lemma FirstLine(x: string, r: string, y: string, q: string)
    requires '\n' !in x && '\n' !in y && x + "\n" + r == y + "\n" + q
    ensures x == y && r == q
  {
    var s := x + "\n" + r;
    assert s[|x|] == '\n' && s[|y|] == '\n';
    assert forall i | 0 <= i < |x| :: s[i] == x[i];
    assert forall i | 0 <= i < |y| :: s[i] == y[i];
    assert |x| == |y|;
    assert x == s[..|x|] && y == s[..|y|];
    assert r == s[|x| + 1..] && q == s[|y| + 1..];
  }

  lemma LastWord(p: string, d: string, q: string, e: string)
    requires ' ' !in d && ' ' !in e && p + " " + d == q + " " + e
    ensures p == q && d == e
  {
    var s := p + " " + d;
    assert s[|p|] == ' ' && s[|q|] == ' ';
    assert forall i | |p| < i < |s| :: s[i] == d[i - |p| - 1];
    assert forall i | |q| < i < |s| :: s[i] == e[i - |q| - 1];
    assert |p| == |q|;
    assert p == s[..|p|] && q == s[..|q|];
    assert d == s[|p| + 1..] && e == s[|q| + 1..];
  }

  /** The text decides the list: any file added, removed, reordered or changed changes it. */
  lemma {:induction false} PinTextDecodable(a: seq<Listed>, b: seq<Listed>)
    requires Encodable(a) && Encodable(b) && PinText(a) == PinText(b)
    ensures a == b
  {
    if a != [] && b != [] {
      var x, y := a[0], b[0];
      FirstLine(x.path + " " + x.sha256, PinText(a[1..]), y.path + " " + y.sha256, PinText(b[1..]));
      LastWord(x.path, x.sha256, y.path, y.sha256);
      PinTextDecodable(a[1..], b[1..]);
      assert a == [a[0]] + a[1..] && b == [b[0]] + b[1..];
    }
  }

  /** A newline in a path, which `_check_files` lets through, makes two lists one text. */
  lemma NewlineInPath(path: string, other: string, first: string, second: string)
    ensures PinText([Listed(path + " " + first + "\n" + other, second)])
         == PinText([Listed(path, first), Listed(other, second)])
  {
    var one := [Listed(path + " " + first + "\n" + other, second)];
    var two := [Listed(path, first), Listed(other, second)];
    assert one[1..] == [] && two[1..] == [Listed(other, second)] && two[1..][1..] == [];
    assert PinText(two) == path + " " + first + "\n" + PinText(two[1..]);
  }

  /** The hashed text is one `<path> <digest>` line for each file, in order. */
  lemma {:induction false} PinTextIs(files: seq<Listed>)
    requires Encodable(files)
    ensures var lines := Split(PinText(files));
      && |lines| == |files| + 1 && lines[|files|] == ""
      && forall i | 0 <= i < |files| :: lines[i] == files[i].path + " " + files[i].sha256
  {
    hide Split;
    if files == [] {
      SplitOneLine("");
    } else {
      PinTextIs(files[1..]);
      var line := files[0].path + " " + files[0].sha256;
      SplitPrepend(line, PinText(files[1..]));
      assert PinText(files) == line + "\n" + PinText(files[1..]);
    }
  }
}
