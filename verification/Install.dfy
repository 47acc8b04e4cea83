/** A crash-safe install of pinned files: `fetch` and `main` of extern/oidn-weights/fetch-oidn-weights.py. */
module Install {
  import opened Text
  import opened FilesPin

  /** A directory tree: every file with its bytes. */
  type Dir = map<string, string>

  const PIN := "pin.txt"

  /** Every listed file is there, with its digest. */
  predicate Complete(hash: string -> string, dir: Dir, files: seq<Listed>) {
    forall i | 0 <= i < |files| :: files[i].path in dir && hash(dir[files[i].path]) == files[i].sha256
  }

  /** A list whose pin stands for it: no listed path is the pin file, and no path has two digests. */
  predicate Proper(files: seq<Listed>) {
    Encodable(files) && NoPinListed(files) && OneDigest(files)
  }

  predicate NoPinListed(files: seq<Listed>) {
    forall i | 0 <= i < |files| :: files[i].path != PIN
  }

  /** No path is listed with two digests. */
  predicate OneDigest(files: seq<Listed>) {
    forall i, j | 0 <= i < j < |files| && files[i].path == files[j].path :: files[i].sha256 == files[j].sha256
  }

  /** SHA-256 as a collision-free function into words. */
  ghost predicate Digests(hash: string -> string) {
    && (forall s, t :: hash(s) == hash(t) ==> s == t)
    && forall s :: Strip(hash(s) + "\n") == hash(s)
  }

  /** The pin an install carries. */
  function Carried(dir: Option<Dir>): Option<string> {
    if dir.Some? && PIN in dir.value then Some(Strip(dir.value[PIN])) else None
  }

  /** An install that carries a list's pin holds that list's files. */
  ghost predicate Honest(hash: string -> string, install: Option<Dir>) {
    forall files: seq<Listed> ::
      Proper(files) && Carried(install) == Some(hash(PinText(files))) ==> Complete(hash, install.value, files)
  }

  lemma PinDecidesFiles(hash: string -> string, a: seq<Listed>, b: seq<Listed>)
    requires Digests(hash) && Encodable(a) && Encodable(b) && hash(PinText(a)) == hash(PinText(b))
    ensures a == b
  {
    hide Strip;
    PinTextDecodable(a, b);
  }

  /** A staged tree with every file and the pin is an honest install. */
  lemma StagedIsHonest(hash: string -> string, dir: Dir, files: seq<Listed>)
    requires Digests(hash) && Encodable(files) && (Proper(files) ==> Complete(hash, dir, files))
    requires PIN in dir && dir[PIN] == hash(PinText(files)) + "\n"
    ensures Honest(hash, Some(dir))
  {
    hide Strip, Proper, Complete, PinText, Encodable;
    forall other: seq<Listed> | Proper(other) && Carried(Some(dir)) == Some(hash(PinText(other)))
      ensures Complete(hash, dir, other)
    {
      assert Encodable(other) by { ProperIsEncodable(other); }
      PinDecidesFiles(hash, files, other);
    }
  }

  lemma ProperIsEncodable(files: seq<Listed>)
    requires Proper(files)
    ensures Encodable(files)
  {
  }

  /** A list with two digests for one path can never be complete. */
  lemma TwoDigests(hash: string -> string, dir: Dir, files: seq<Listed>, i: nat, j: nat)
    requires i < j < |files| && files[i].path == files[j].path && files[i].sha256 != files[j].sha256
    ensures !Complete(hash, dir, files)
  {
  }

  /** An honest install that carries the pin of a list holds the list's files, if and only if the list gives no path two
      digests. A list that does can be installed: the later file replaces the earlier one, and the pin is written. */
  lemma CarriedIsComplete(hash: string -> string, install: Option<Dir>, files: seq<Listed>)
    requires Encodable(files) && NoPinListed(files) && Honest(hash, install)
    requires Carried(install) == Some(hash(PinText(files)))
    ensures Complete(hash, install.value, files) <==> OneDigest(files)
  {
    hide Encodable, NoPinListed, PinText, Strip;
    if !OneDigest(files) {
      var i, j :| 0 <= i < j < |files| && files[i].path == files[j].path && files[i].sha256 != files[j].sha256;
      TwoDigests(hash, install.value, files, i, j);
    }
  }

  /** Every download has the digest it is listed with. */
  predicate Verified(hash: string -> string, files: seq<Listed>, data: seq<string>)
    requires |data| == |files|
  {
    forall i | 0 <= i < |files| :: hash(data[i]) == files[i].sha256
  }

  /** The tree that holds exactly the downloads, a later one replacing an earlier one of the same path. */
  function Downloaded(files: seq<Listed>, data: seq<string>): Dir
    requires |data| == |files|
  {
    if files == [] then map[]
    else
      var n := |files| - 1;
      Downloaded(files[..n], data[..n])[files[n].path := data[n]]
  }

  /** It holds the listed files, each with what was downloaded last for it, and no other file. */
  lemma {:induction false} DownloadedIs(files: seq<Listed>, data: seq<string>, p: string)
    requires |data| == |files|
    ensures p in Downloaded(files, data) <==> exists i :: 0 <= i < |files| && files[i].path == p
    ensures forall i | 0 <= i < |files| && files[i].path == p && (forall j | i < j < |files| :: files[j].path != p) ::
      p in Downloaded(files, data) && Downloaded(files, data)[p] == data[i]
    decreases |files|
  {
    if files != [] {
      var n := |files| - 1;
      DownloadedIs(files[..n], data[..n], p);
      if files[n].path != p && p in Downloaded(files, data) {
        var i :| 0 <= i < n && files[..n][i].path == p;
        assert files[i].path == p;
      }
      forall i | 0 <= i < |files| && files[i].path == p ensures p in Downloaded(files, data) {
        if i < n {
          assert files[..n][i].path == p;
        }
      }
    }
  }

  datatype Outcome = Current | Installed | Refused | Crashed

  /** One invocation: its flag, the manifest at that time, what the download of each file returns, and how many disk
      operations it lives through. */
  datatype Invocation = Invocation(force: bool, files: seq<Listed>, data: seq<string>, lives: nat)

  /** How many disk operations it takes to remove a tree, file by file and the directory. */
  function RemoveCost(dir: Option<Dir>): nat {
    if dir.None? then 0 else |dir.value.Keys| + 1
  }

  /** How many disk operations an install takes: remove and make the staging tree, write the files and the pin, unlink the
      old pin, remove the old tree and rename. */
  function Cost(install: Option<Dir>, staging: Option<Dir>, files: nat): nat {
    RemoveCost(staging) + 1 + files + 1 + 1
    + RemoveCost(if install.None? then None else Some(install.value - {PIN})) + 1
  }

  class Disk {
    var install: Option<Dir>
    var staging: Option<Dir>
    var lives: nat
    const hash: string -> string

    constructor (hash: string -> string)
      ensures this.hash == hash && install == None && staging == None && lives == 0
    {
      this.hash, install, staging, lives := hash, None, None, 0;
    }

    /** One more disk operation, unless the process dies before it. */
    method Alive() returns (alive: bool)
      modifies this`lives
      ensures alive <==> old(lives) > 0
      ensures lives == if alive then old(lives) - 1 else 0
    {
      alive := lives > 0;
      if alive {
        lives := lives - 1;
      }
    }

    /** `shutil.rmtree(staging)`, file by file in any order. */
    method RemoveStaging() returns (done: bool)
      requires staging.Some?
      modifies this`lives, this`staging
      ensures done ==> staging == None && lives == old(lives) - RemoveCost(old(staging))
      ensures !done ==> lives == 0 && old(lives) < RemoveCost(old(staging))
    {
      while staging.Some? && staging.value.Keys != {}
        invariant staging.Some? && lives + RemoveCost(old(staging)) == old(lives) + RemoveCost(staging)
        decreases if staging.Some? then |staging.value.Keys| else 0
      {
        var alive := Alive();
        if !alive {
          return false;
        }
        var p :| p in staging.value.Keys;
        var rest := staging.value - {p};
        assert rest.Keys == staging.value.Keys - {p};
        staging := Some(rest);
      }
      done := Alive();
      if done {
        staging := None;
      }
    }

    /** `shutil.rmtree(INSTALL)` of a tree whose pin is gone already. */
    method RemoveInstall() returns (done: bool)
      requires install.Some? && Carried(install) == None
      modifies this`lives, this`install
      ensures Carried(install) == None
      ensures done ==> install == None && lives == old(lives) - RemoveCost(old(install))
      ensures !done ==> lives == 0 && old(lives) < RemoveCost(old(install))
    {
      while install.Some? && install.value.Keys != {}
        invariant Carried(install) == None
        invariant install.Some? && lives + RemoveCost(old(install)) == old(lives) + RemoveCost(install)
        decreases if install.Some? then |install.value.Keys| else 0
      {
        var alive := Alive();
        if !alive {
          return false;
        }
        var p :| p in install.value.Keys;
        var rest := install.value - {p};
        assert rest.Keys == install.value.Keys - {p};
        install := Some(rest);
      }
      done := Alive();
      if done {
        install := None;
      }
    }

    /** Writes a file into the staging tree; a crash in the middle leaves any bytes there. */
    method Stage(path: string, bytes: string) returns (done: bool)
      requires staging.Some?
      modifies this`lives, this`staging
      ensures staging.Some?
      ensures done ==> staging == Some(old(staging).value[path := bytes]) && lives == old(lives) - 1
      ensures !done ==> lives == 0 == old(lives)
    {
      done := Alive();
      var torn: string := *;
      staging := Some(staging.value[path := if done then bytes else torn]);
    }

    /** The download loop: `fetch` refuses bytes whose digest is not the pinned one. */
    method FetchAll(files: seq<Listed>, data: seq<string>) returns (r: Outcome)
      requires staging == Some(map[]) && |data| == |files|
      modifies this`lives, this`staging
      ensures staging.Some?
      ensures r.Installed? && Proper(files) ==> Complete(hash, staging.value, files)
      ensures !r.Current?
      ensures r.Installed? ==> Verified(hash, files, data) && staging.value == Downloaded(files, data)
      ensures r.Refused? ==> !Verified(hash, files, data)
      ensures r.Installed? ==> lives == old(lives) - |files|
      ensures r.Crashed? ==> lives == 0 && old(lives) < |files|
    {
      for i := 0 to |files|
        invariant lives == old(lives) - i
        invariant forall k | 0 <= k < i :: hash(data[k]) == files[k].sha256
        invariant staging.Some? && staging.value == Downloaded(files[..i], data[..i])
        invariant staging.Some? && (Proper(files) ==> Complete(hash, staging.value, files[..i]))
      {
        if hash(data[i]) != files[i].sha256 {
          return Refused;
        }
        ghost var before := staging.value;
        var done := Stage(files[i].path, data[i]);
        if !done {
          return Crashed;
        }
        assert files[..i + 1][..i] == files[..i] && data[..i + 1][..i] == data[..i];
        if Proper(files) {
          StagedOne(hash, before, files, i, data[i]);
        }
      }
      assert files[..|files|] == files && data[..|data|] == data;
      return Installed;
    }

    /** `main`: stage, verify, write the pin; then unlink the old pin, remove the old tree and rename. */
    method Run(call: Invocation) returns (r: Outcome)
      requires Digests(hash) && Encodable(call.files) && |call.data| == |call.files|
      requires Honest(hash, install)
      modifies this
      ensures Honest(hash, install)
      ensures r.Installed? ==> Carried(install) == Some(hash(PinText(call.files)))
      ensures r.Current? <==> !call.force && Carried(old(install)) == Some(hash(PinText(call.files)))
      ensures r.Current? ==> install == old(install) && staging == old(staging)
      ensures r.Installed? ==> Verified(hash, call.files, call.data) && staging == None
      ensures r.Installed? ==>
        install == Some(Downloaded(call.files, call.data)["pin.txt" := hash(PinText(call.files)) + "\n"])
      ensures r.Refused? ==> install == old(install) && !Verified(hash, call.files, call.data)
      ensures r.Crashed? ==> lives == 0 && call.lives < Cost(old(install), old(staging), |call.files|)
    {
      hide Strip, Digests, Proper, Complete, Honest, PinText, Encodable, Verified, Downloaded;
      lives := call.lives;
      var pin := hash(PinText(call.files));
      if !call.force && Carried(install) == Some(pin) {
        return Current;
      }
      if staging.Some? {
        var done := RemoveStaging();
        if !done {
          return Crashed;
        }
      }
      var made := Alive();
      if !made {
        return Crashed;
      }
      staging := Some(map[]);
      var fetched := FetchAll(call.files, call.data);
      if !fetched.Installed? {
        return fetched;
      }
      ghost var files := staging.value;
      var pinned := Stage(PIN, pin + "\n");
      if !pinned {
        return Crashed;
      }
      if Proper(call.files) {
        PinKeepsFiles(hash, files, call.files, pin + "\n");
      }
      StagedIsHonest(hash, staging.value, call.files);
      r := Swap();
      PinReads(hash, pin, call.files);
    }

    /** The swap: the pin goes first, so that no partly removed tree carries one. */
    method Swap() returns (r: Outcome)
      requires staging.Some? && Honest(hash, staging) && Honest(hash, install)
      modifies this
      ensures Honest(hash, install)
      ensures r.Installed? || r.Crashed?
      ensures r.Installed? ==> install == old(staging) && staging == None
      ensures r.Crashed? ==> lives == 0 && old(lives) < Cost(old(install), None, 0) - 2
    {
      hide Strip, Proper, Complete, PinText;
      var alive := Alive();
      if !alive {
        return Crashed;
      }
      if install.Some? {
        install := Some(install.value - {PIN});
        var done := RemoveInstall();
        NoPinIsHonest(hash, install);
        if !done {
          return Crashed;
        }
      }
      alive := Alive();
      if !alive {
        return Crashed;
      }
      install, staging := staging, None;
      return Installed;
    }

    /** Any number of invocations, each under its own manifest and dying wherever it dies. */
    method RunAll(calls: seq<Invocation>) returns (outcomes: seq<Outcome>)
      requires Digests(hash) && Honest(hash, install)
      requires forall call <- calls :: Encodable(call.files) && |call.data| == |call.files|
      modifies this
      ensures Honest(hash, install) && |outcomes| == |calls|
      ensures calls != [] && (outcomes[|calls| - 1].Installed? || outcomes[|calls| - 1].Current?) ==>
        Carried(install) == Some(hash(PinText(calls[|calls| - 1].files)))
      ensures forall i | 0 <= i < |calls| && outcomes[i].Installed? :: Verified(hash, calls[i].files, calls[i].data)
    {
      hide Digests, Encodable, Honest, Verified, Carried, Downloaded;
      outcomes := [];
      for i := 0 to |calls|
        invariant Honest(hash, install) && |outcomes| == i
        invariant i > 0 && (outcomes[i - 1].Installed? || outcomes[i - 1].Current?) ==>
          Carried(install) == Some(hash(PinText(calls[i - 1].files)))
        invariant forall k | 0 <= k < i && outcomes[k].Installed? :: Verified(hash, calls[k].files, calls[k].data)
      {
        assert calls[i] in calls;
        var r := Run(calls[i]);
        outcomes := outcomes + [r];
      }
    }
  }

  lemma NoPinIsHonest(hash: string -> string, install: Option<Dir>)
    requires Carried(install) == None
    ensures Honest(hash, install)
  {
  }

  lemma PinReads(hash: string -> string, pin: string, files: seq<Listed>)
    requires Digests(hash) && pin == hash(PinText(files))
    ensures Strip(pin + "\n") == pin
  {
    hide Strip;
  }

  lemma PinKeepsFiles(hash: string -> string, dir: Dir, files: seq<Listed>, bytes: string)
    requires Proper(files) && Complete(hash, dir, files)
    ensures Complete(hash, dir[PIN := bytes], files)
  {
  }

  lemma StagedOne(hash: string -> string, dir: Dir, files: seq<Listed>, i: nat, bytes: string)
    requires i < |files| && Proper(files) && Complete(hash, dir, files[..i]) && hash(bytes) == files[i].sha256
    ensures Complete(hash, dir[files[i].path := bytes], files[..i + 1])
  {
    hide Encodable;
    var after := dir[files[i].path := bytes];
    forall k | 0 <= k < |files[..i + 1]|
      ensures files[k].path in after && hash(after[files[k].path]) == files[k].sha256
    {
      assert k < i ==> files[..i][k] == files[k];
    }
  }
}
