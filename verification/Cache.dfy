/** The cache of upstream lookups: `load_cache`, `save_cache` and `run_list` of tools/deps/deps.py. */
module Cache {

  datatype Latest = Latest(info: string, error: string)

  const UNKNOWN: Latest := Latest("", "")

  /** An upstream; `key` is `<directory>/<name>`. */
  datatype Upstream = Upstream(key: string, pin: string)

  datatype Entry = Entry(answer: Latest, pin: string, fetchedAt: real)

  datatype CacheFile = Missing | Unreadable | Saved(schema: string, upstreams: map<string, Entry>)

  const SCHEMA: string := "deps/1"
  const TTL_SECONDS: real := 86400.0

  /** One run of `list`. `start` is the clock when the cache is loaded; `replies[m]` is what upstream `m` answers when it
      is asked, and `times[m]` the clock after that. */
  datatype Run = Run(
    upstreams: seq<Upstream>, offline: bool, refresh: bool, start: real, replies: seq<Latest>, times: seq<real>)

  predicate Valid(run: Run) {
    |run.upstreams| == |run.replies| == |run.times|
  }

  // --- one run ------------------------------------------------------------------------------------

  function Entries(file: CacheFile): map<string, Entry> {
    if file.Saved? && file.schema == SCHEMA then file.upstreams else map[]
  }

  function Load(file: CacheFile, refresh: bool, start: real): map<string, Entry> {
    if refresh then map[]
    else map k | k in Entries(file) && start - Entries(file)[k].fetchedAt <= TTL_SECONDS :: Entries(file)[k]
  }

  predicate Hit(cache: map<string, Entry>, up: Upstream) {
    up.key in cache && cache[up.key].pin == up.pin
  }

  /** The answers after the first `n` upstreams. */
  function Resolved(cache: map<string, Entry>, run: Run, n: nat): map<string, Latest>
    requires Valid(run) && n <= |run.upstreams|
  {
    if n == 0 then map[]
    else
      var up := run.upstreams[n - 1];
      Resolved(cache, run, n - 1)[up.key := if Hit(cache, up) then cache[up.key].answer else run.replies[n - 1]]
  }

  /** The entries to save after the first `n` upstreams: hits as they were, and answers without an error. */
  function Fresh(cache: map<string, Entry>, run: Run, n: nat): map<string, Entry>
    requires Valid(run) && n <= |run.upstreams|
  {
    if n == 0 then map[]
    else
      var up, before := run.upstreams[n - 1], Fresh(cache, run, n - 1);
      if Hit(cache, up) then before[up.key := cache[up.key]]
      else if run.replies[n - 1].error == ""
      then before[up.key := Entry(run.replies[n - 1], up.pin, run.times[n - 1])]
      else before
  }

  function After(file: CacheFile, run: Run): CacheFile
    requires Valid(run)
  {
    if run.offline then file
    else Saved(SCHEMA, Fresh(Load(file, run.refresh, run.start), run, |run.upstreams|))
  }

  /** The answer in row `m`. */
  function Row(file: CacheFile, run: Run, m: nat): Latest
    requires Valid(run) && m < |run.upstreams|
  {
    if run.offline then UNKNOWN
    else
      var resolved := Resolved(Load(file, run.refresh, run.start), run, |run.upstreams|);
      if run.upstreams[m].key in resolved then resolved[run.upstreams[m].key] else UNKNOWN
  }

  /** The tool with its cache file. */
  class Tool {
    var file: CacheFile

    method LoadCache(refresh: bool, now: real) returns (cache: map<string, Entry>)
      ensures cache == Load(file, refresh, now)
    {
      if refresh || !file.Saved? || file.schema != SCHEMA {
        return map[];
      }
      cache := map k | k in file.upstreams && now - file.upstreams[k].fetchedAt <= TTL_SECONDS :: file.upstreams[k];
    }

    /** `run_list`: asks the upstreams the cache does not answer, saves what it may, and shows one row each. */
    method RunList(run: Run) returns (rows: seq<Latest>)
      requires Valid(run)
      modifies this
      ensures file == After(old(file), run)
      ensures |rows| == |run.upstreams| && forall m | 0 <= m < |rows| :: rows[m] == Row(old(file), run, m)
    {
      var resolved: map<string, Latest> := map[];
      if !run.offline {
        var cache := LoadCache(run.refresh, run.start);
        var kept: map<string, Entry> := map[];
        for m := 0 to |run.upstreams|
          invariant file == old(file)
          invariant resolved == Resolved(cache, run, m) && kept == Fresh(cache, run, m)
        {
          var up := run.upstreams[m];
          if up.key in cache && cache[up.key].pin == up.pin {
            resolved := resolved[up.key := cache[up.key].answer];
            kept := kept[up.key := cache[up.key]];
          } else {
            var latest := run.replies[m];
            resolved := resolved[up.key := latest];
            if latest.error == "" {
              kept := kept[up.key := Entry(latest, up.pin, run.times[m])];
            }
          }
        }
        file := Saved(SCHEMA, kept);
      }
      rows := [];
      for m := 0 to |run.upstreams|
        invariant |rows| == m && forall i | 0 <= i < m :: rows[i] == Row(old(file), run, i)
      {
        var key := run.upstreams[m].key;
        rows := rows + [if key in resolved then resolved[key] else UNKNOWN];
      }
    }
  }

  // --- where an answer comes from -----------------------------------------------------------------

  /** The run asks upstream `m`, because the cache has no answer for its pin. */
  predicate Asks(file: CacheFile, run: Run, m: nat) {
    m < |run.upstreams| && !run.offline && !Hit(Load(file, run.refresh, run.start), run.upstreams[m])
  }

  /** No later upstream of the run has the same key. */
  predicate LastOfKey(run: Run, m: nat) {
    m < |run.upstreams| && forall i | m < i < |run.upstreams| :: run.upstreams[i].key != run.upstreams[m].key
  }

  lemma {:induction false} ResolvedAt(cache: map<string, Entry>, run: Run, n: nat, m: nat)
    requires Valid(run) && m < n <= |run.upstreams|
    requires forall i | m < i < n :: run.upstreams[i].key != run.upstreams[m].key
    ensures var up := run.upstreams[m];
      up.key in Resolved(cache, run, n)
      && Resolved(cache, run, n)[up.key] == if Hit(cache, up) then cache[up.key].answer else run.replies[m]
    decreases n
  {
    if m < n - 1 {
      ResolvedAt(cache, run, n - 1, m);
    }
  }

  /** The last upstream of the run with the key of upstream `m`. */
  function LastIndex(run: Run, m: nat, n: nat): (l: nat)
    requires m < n <= |run.upstreams|
    ensures m <= l < n && run.upstreams[l].key == run.upstreams[m].key
    ensures forall i | l < i < n :: run.upstreams[i].key != run.upstreams[m].key
  {
    if run.upstreams[n - 1].key == run.upstreams[m].key then n - 1 else LastIndex(run, m, n - 1)
  }

  function Deciding(run: Run, m: nat): nat
    requires m < |run.upstreams|
  {
    LastIndex(run, m, |run.upstreams|)
  }

  /** What upstream `m` was told in this run, or had in the cache for its pin. */
  function OwnAnswer(file: CacheFile, run: Run, m: nat): Latest
    requires Valid(run) && m < |run.upstreams| && !run.offline
  {
    if Asks(file, run, m) then run.replies[m] else Load(file, run.refresh, run.start)[run.upstreams[m].key].answer
  }

  /** Every row shows the answer of the last upstream with its key. */
  lemma RowIs(file: CacheFile, run: Run, m: nat)
    requires Valid(run) && m < |run.upstreams| && !run.offline
    ensures Row(file, run, m) == OwnAnswer(file, run, Deciding(run, m))
  {
    ResolvedAt(Load(file, run.refresh, run.start), run, |run.upstreams|, Deciding(run, m));
  }

  /** Answers that tell upstream `m` apart from the last one with its key. */
  function Telling(run: Run, m: nat): seq<Latest> {
    seq(|run.upstreams|, i => Latest(if i == m then "own" else "other", ""))
  }

  /** A row shows its own upstream's answer, whatever the cache holds and the upstreams reply, if and only if no later
      upstream has its key. */
  lemma OwnRowIffLast(run: Run, m: nat)
    requires Valid(run) && m < |run.upstreams| && !run.offline
    ensures LastOfKey(run, m) <==>
      forall file, replies | |replies| == |run.upstreams| ::
        Row(file, run.(replies := replies), m) == OwnAnswer(file, run.(replies := replies), m)
  {
    hide Row, LastIndex;
    if LastOfKey(run, m) {
      forall file, replies | |replies| == |run.upstreams|
        ensures Row(file, run.(replies := replies), m) == OwnAnswer(file, run.(replies := replies), m)
      {
        RowIs(file, run.(replies := replies), m);
      }
    } else {
      SharedKey(run, m);
    }
  }

  /** With an empty cache and differing replies a row whose key comes again shows another upstream's answer. */
  lemma SharedKey(run: Run, m: nat)
    requires Valid(run) && m < |run.upstreams| && !run.offline && !LastOfKey(run, m)
    ensures var r := run.(replies := Telling(run, m));
      OwnAnswer(Missing, r, m) == Latest("own", "") && Row(Missing, r, m) == Latest("other", "")
  {
    hide Row, LastIndex;
    var r := run.(replies := Telling(run, m));
    RowIs(Missing, r, m);
    assert Deciding(r, m) != m;
  }

  /** `e` is the answer upstream `m` gave in this run, recorded when it came. */
  predicate Recorded(file: CacheFile, run: Run, m: nat, key: string, e: Entry)
    requires Valid(run)
  {
    && Asks(file, run, m) && run.upstreams[m] == Upstream(key, e.pin)
    && e == Entry(run.replies[m], e.pin, run.times[m]) && e.answer.error == ""
  }

  lemma {:induction false} FreshFrom(file: CacheFile, run: Run, n: nat, key: string) returns (m: nat)
    requires Valid(run) && n <= |run.upstreams| && !run.offline
    requires key in Fresh(Load(file, run.refresh, run.start), run, n)
    ensures var e := Fresh(Load(file, run.refresh, run.start), run, n)[key];
      (key in Entries(file) && e == Entries(file)[key]) || Recorded(file, run, m, key, e)
    decreases n
  {
    m := n - 1;
    var cache := Load(file, run.refresh, run.start);
    var up := run.upstreams[n - 1];
    if up.key != key || (!Hit(cache, up) && run.replies[n - 1].error != "") {
      m := FreshFrom(file, run, n - 1, key);
    }
  }

  /** An entry of the file after a run was there before, with the same time, or was recorded in the run. */
  lemma CopiedOrRecorded(file: CacheFile, run: Run, key: string) returns (m: nat)
    requires Valid(run) && key in Entries(After(file, run))
    ensures var e := Entries(After(file, run))[key];
      (key in Entries(file) && e == Entries(file)[key]) || Recorded(file, run, m, key, e)
  {
    m := 0;
    if !run.offline {
      m := FreshFrom(file, run, |run.upstreams|, key);
    }
  }

  // --- over any number of runs --------------------------------------------------------------------

  predicate AllValid(runs: seq<Run>) {
    forall i | 0 <= i < |runs| :: Valid(runs[i])
  }

  /** The file after the first `n` runs. */
  function FileAt(file: CacheFile, runs: seq<Run>, n: nat): CacheFile
    requires AllValid(runs) && n <= |runs|
  {
    if n == 0 then file else After(FileAt(file, runs, n - 1), runs[n - 1])
  }

  /** Run `j` asked upstream `m` and recorded `e`. */
  predicate RecordedIn(file: CacheFile, runs: seq<Run>, j: nat, m: nat, key: string, e: Entry)
    requires AllValid(runs)
  {
    j < |runs| && Recorded(FileAt(file, runs, j), runs[j], m, key, e)
  }

  /** Every entry was recorded by an earlier run, and without an error. */
  lemma {:induction false} EntriesRecorded(file: CacheFile, runs: seq<Run>, n: nat, key: string) returns (j: nat, m: nat)
    requires AllValid(runs) && n <= |runs| && Entries(file) == map[]
    requires key in Entries(FileAt(file, runs, n))
    ensures j < n && RecordedIn(file, runs, j, m, key, Entries(FileAt(file, runs, n))[key])
    decreases n
  {
    hide Recorded, After, Entries;
    j, m := 0, 0;
    if n > 0 {
      j := n - 1;
      m := CopiedOrRecorded(FileAt(file, runs, n - 1), runs[n - 1], key);
      if key in Entries(FileAt(file, runs, n - 1))
        && Entries(FileAt(file, runs, n - 1))[key] == Entries(FileAt(file, runs, n))[key] {
        j, m := EntriesRecorded(file, runs, n - 1, key);
      }
    }
  }

  /** The clock never goes back between runs. */
  predicate ClockForward(runs: seq<Run>)
    requires AllValid(runs)
  {
    forall i, j | 0 <= i < j < |runs| :: forall m | 0 <= m < |runs[i].times| :: runs[i].times[m] <= runs[j].start
  }

  /** Every answer a run shows it got itself, or an earlier run got it for the same key and pin, without an error, and
      recorded it no longer than the lifetime before this run loaded the cache. The pin is that of the last upstream
      with the row's key, which is the row's own one unless the key comes again. */
  lemma ShownAnswerIsCurrent(file: CacheFile, runs: seq<Run>, i: nat, m: nat) returns (j: nat, k: nat)
    requires AllValid(runs) && ClockForward(runs) && Entries(file) == map[]
    requires i < |runs| && !runs[i].offline && m < |runs[i].upstreams|
    ensures var l := Deciding(runs[i], m);
      var shown, up := Row(FileAt(file, runs, i), runs[i], m), runs[i].upstreams[l];
      && up.key == runs[i].upstreams[m].key && (LastOfKey(runs[i], m) <==> l == m)
      && (|| (Asks(FileAt(file, runs, i), runs[i], l) && shown == runs[i].replies[l])
          || (&& !runs[i].refresh && j < i && k < |runs[j].times|
              && RecordedIn(file, runs, j, k, up.key, Entry(shown, up.pin, runs[j].times[k]))
              && 0.0 <= runs[i].start - runs[j].times[k] <= 86400.0))
  {
    hide FileAt, Resolved, Row, LastIndex;
    j, k := 0, 0;
    var now, run := FileAt(file, runs, i), runs[i];
    var l := Deciding(run, m);
    RowIs(now, run, m);
    if !Asks(now, run, l) {
      j, k := EntriesRecorded(file, runs, i, run.upstreams[l].key);
      assert runs[j].times[k] <= runs[i].start;
    }
  }

  /** A failed lookup is not remembered: the next run asks again. */
  lemma ErrorIsAskedAgain(file: CacheFile, run: Run, next: Run, m: nat, n: nat)
    requires Valid(run) && Valid(next) && n < |next.upstreams| && !next.offline
    requires Asks(file, run, m) && run.replies[m].error != ""
    requires forall i | 0 <= i < |run.upstreams| && i != m :: run.upstreams[i].key != run.upstreams[m].key
    requires next.upstreams[n] == run.upstreams[m]
    ensures Asks(After(file, run), next, n)
  {
    var cache := Load(file, run.refresh, run.start);
    FreshSkips(cache, run, |run.upstreams|, m);
  }

  lemma {:induction false} FreshSkips(cache: map<string, Entry>, run: Run, n: nat, m: nat)
    requires Valid(run) && n <= |run.upstreams| && m < |run.upstreams|
    requires !Hit(cache, run.upstreams[m]) && run.replies[m].error != ""
    requires forall i | 0 <= i < |run.upstreams| && i != m :: run.upstreams[i].key != run.upstreams[m].key
    ensures run.upstreams[m].key !in Fresh(cache, run, n)
    decreases n
  {
    if n > 0 {
      FreshSkips(cache, run, n - 1, m);
    }
  }

  lemma {:induction false} FreshAt(cache: map<string, Entry>, run: Run, n: nat, m: nat)
    requires Valid(run) && m < n <= |run.upstreams|
    requires forall i | m < i < n :: run.upstreams[i].key != run.upstreams[m].key
    requires !Hit(cache, run.upstreams[m]) && run.replies[m].error == ""
    ensures run.upstreams[m].key in Fresh(cache, run, n)
    ensures Fresh(cache, run, n)[run.upstreams[m].key] == Entry(run.replies[m], run.upstreams[m].pin, run.times[m])
    decreases n
  {
    if m < n - 1 {
      FreshAt(cache, run, n - 1, m);
    }
  }

  /** An answer is shown again by the next run, without asking, if and only if that run does not refresh and starts
      within the answer's lifetime. */
  lemma AnswerIsReused(file: CacheFile, run: Run, next: Run, m: nat, n: nat)
    requires Valid(run) && Valid(next) && !next.offline && LastOfKey(next, n)
    requires Asks(file, run, m) && run.replies[m].error == "" && LastOfKey(run, m)
    requires next.upstreams[n] == run.upstreams[m]
    ensures !Asks(After(file, run), next, n) <==> !next.refresh && next.start - run.times[m] <= 86400.0
    ensures !Asks(After(file, run), next, n) ==> Row(After(file, run), next, n) == run.replies[m]
  {
    hide Resolved, Row, LastIndex;
    FreshAt(Load(file, run.refresh, run.start), run, |run.upstreams|, m);
    RowIs(After(file, run), next, n);
  }

  /** An answer from the cache stays in it as it was, with its time and not the run's. */
  lemma HitIsCarried(file: CacheFile, run: Run, m: nat)
    requires Valid(run) && LastOfKey(run, m) && !run.offline && !Asks(file, run, m)
    ensures var key := run.upstreams[m].key;
      && key in Entries(file) && key in Entries(After(file, run))
      && Entries(After(file, run))[key] == Entries(file)[key] && Entries(file)[key].pin == run.upstreams[m].pin
  {
    CarriedAt(Load(file, run.refresh, run.start), run, |run.upstreams|, m);
  }

  lemma {:induction false} CarriedAt(cache: map<string, Entry>, run: Run, n: nat, m: nat)
    requires Valid(run) && m < n <= |run.upstreams| && Hit(cache, run.upstreams[m])
    requires forall i | m < i < n :: run.upstreams[i].key != run.upstreams[m].key
    ensures run.upstreams[m].key in Fresh(cache, run, n)
    ensures Fresh(cache, run, n)[run.upstreams[m].key] == cache[run.upstreams[m].key]
    decreases n
  {
    if m < n - 1 {
      CarriedAt(cache, run, n - 1, m);
    }
  }

  /** What no upstream of the run asks for is dropped. */
  lemma OthersAreDropped(file: CacheFile, run: Run, key: string)
    requires Valid(run) && !run.offline && forall i | 0 <= i < |run.upstreams| :: run.upstreams[i].key != key
    ensures key !in Entries(After(file, run))
  {
    FreshHasNot(Load(file, run.refresh, run.start), run, |run.upstreams|, key);
  }

  lemma {:induction false} FreshHasNot(cache: map<string, Entry>, run: Run, n: nat, key: string)
    requires Valid(run) && n <= |run.upstreams| && forall i | 0 <= i < n :: run.upstreams[i].key != key
    ensures key !in Fresh(cache, run, n)
    decreases n
  {
    if n > 0 {
      FreshHasNot(cache, run, n - 1, key);
    }
  }

  /** An offline run shows nothing and leaves the file as it is. */
  lemma OfflineKeeps(file: CacheFile, run: Run, m: nat)
    requires Valid(run) && run.offline && m < |run.upstreams|
    ensures After(file, run) == file && Row(file, run, m) == Latest("", "") && !Asks(file, run, m)
  {
  }

  /** A refreshing run asks every upstream, and so does one that finds no file it can read, or one of another schema. */
  lemma NothingToReuse(file: CacheFile, run: Run, m: nat)
    requires !run.offline && m < |run.upstreams|
    requires run.refresh || !file.Saved? || file.schema != "deps/1"
    ensures Asks(file, run, m)
  {
  }
}
