/** The rules an issue file must meet: `_check_issue` of tools/issues/issues.py. */
module Check {
  import opened Text
  import opened Frontmatter

  type Path = string

  /** A checkout or a commit: every file with its text. */
  type Tree = map<Path, string>

  /** What the YAML reader returns for one node. */
  datatype Value = Str(s: string) | List(items: seq<Value>) | Mapping(entries: seq<(string, Value)>)

  type Meta = map<string, Value>

  datatype Parsed = Fields(meta: Meta) | NotYaml(message: string) | NotMapping

  /** A name of an issue, split at its qualifier. */
  datatype Qid = Qid(repo: Option<string>, id: string)

  /** A `file` ref: a path, and a line range when it names one. */
  datatype FileRef = FileRef(rel: Path, lines: Option<(int, int)>)

  /** Where an issue file lies, which is all its path decides. */
  datatype Place = Place(id: string, closed: bool, month: string, errors: set<string>)

  /** What lies outside the text being checked: the YAML reader, the name and path grammars, `splitlines`, the other
      repositories, and whatever is known of paths the tree does not hold. */
  datatype World = World(
    yaml: Lines -> Parsed,
    qid: string -> Option<Qid>,
    fileRef: string -> FileRef,
    place: Path -> Place,
    isIssue: Path -> bool,
    isOwn: string -> bool,
    foreign: Qid -> Option<string>,
    elsewhere: Path -> Option<int>,
    lineCount: string -> nat)

  datatype Problem =
    | BadPlace(what: string)
    | NotClosed
    | BadYaml(message: string)
    | BadMapping
    | NoTitle
    | BadShape(key: string)
    | NotAllowed(key: string)
    | NotSingle(key: string)
    | NotAList(key: string)
    | ClaimIncomplete
    | ClosedWithout(key: string)
    | WrongMonth(date: string)
    | OpenWith(key: string)
    | ParentMissing(id: string)
    | ParentNotEpic(id: string)
    | EpicWithParent
    | BlockerMissing(id: string)
    | RefsNotList
    | BadRef(ref: Value)
    | RefIssueMissing(id: string)
    | RefFileMissing(rel: Path)
    | RefLinesOutside(value: string, rel: Path, count: nat)

  // --- shapes -------------------------------------------------------------------------------------

  predicate Digit(c: char) {
    '0' <= c <= '9'
  }

  /** `d` in the pattern stands for a digit, every other character for itself. */
  predicate Shaped(s: string, pattern: string) {
    |s| == |pattern| && forall i | 0 <= i < |s| :: if pattern[i] == 'd' then Digit(s[i]) else s[i] == pattern[i]
  }

  predicate DateShaped(s: string) {
    Shaped(s, "dddd-dd-dd")
  }

  predicate StampShaped(s: string) {
    Shaped(s, "dddd-dd-ddTdd:ddZ") || Shaped(s, "dddd-dd-ddTdd:dd:ddZ")
  }

  predicate Allowed(key: string, s: string) {
    if key == "priority" then s in ["next", "normal", "someday"]
    else s in ["fixed", "wontfix", "duplicate", "obsolete"]
  }

  // --- an issue and what it names -----------------------------------------------------------------

  function TypeOf(id: string): string {
    if id == "" || id[0] == '-' then "" else [id[0]] + TypeOf(id[1..])
  }

  predicate Titled(body: Lines) {
    var b := DropBlank(body);
    b != [] && "# " <= b[0]
  }

  /** `_parse_meta`: the fields, or none with the problem that hides them. */
  function Read(w: World, text: string): (Meta, set<Problem>) {
    var lines := Split(text);
    if End(lines).None? then (map[], if Dangling(lines) then {NotClosed} else {})
    else
      match w.yaml(Front(lines))
      case Fields(meta) => (meta, {})
      case NotYaml(m) => (map[], {BadYaml(m)})
      case NotMapping => (map[], {BadMapping})
  }

  /** The `errors` of `_load_issue`. */
  function LoadErrors(w: World, path: Path, text: string): set<Problem> {
    (set e | e in w.place(path).errors :: BadPlace(e))
    + Read(w, text).1
    + if Titled(Body(Split(text))) then {} else {NoTitle}
  }

  function Get(meta: Meta, key: string): Option<string> {
    if key in meta && meta[key].Str? && meta[key].s != "" then Some(meta[key].s) else None
  }

  function StrsOf(items: seq<Value>): seq<string> {
    if items == [] then [] else (if items[0].Str? then [items[0].s] else []) + StrsOf(items[1..])
  }

  function GetList(meta: Meta, key: string): seq<string> {
    if key !in meta then []
    else
      match meta[key]
      case Str(s) => if s == "" then [] else [s]
      case List(items) => StrsOf(items)
      case Mapping(_) => []
  }

  /** `_Resolver.issue_type`: the type of the issue a name stands for. */
  function IssueType(w: World, tree: Tree, name: string): Option<string> {
    match w.qid(name)
    case None => None
    case Some(q) =>
      if q.repo.None? || w.isOwn(q.repo.value) then
        if exists p | p in tree :: w.isIssue(p) && w.place(p).id == q.id then Some(TypeOf(q.id)) else None
      else w.foreign(q)
  }

  /** `_Resolver.file_lines`: the line count, -1 for a directory or an ignored path, None when there is nothing. */
  function FileLines(w: World, tree: Tree, rel: Path): Option<int> {
    if rel in tree then Some(w.lineCount(tree[rel]))
    else if exists p | p in tree :: rel + "/" <= p then Some(-1)
    else w.elsewhere(rel)
  }

  // --- the rules ----------------------------------------------------------------------------------

  function When(broken: bool, p: Problem): set<Problem> {
    if broken then {p} else {}
  }

  /** `created`, `closed` and `claimed-at` have their shapes. */
  function ShapeProblems(meta: Meta): set<Problem> {
    When("created" in meta && !(meta["created"].Str? && DateShaped(meta["created"].s)), BadShape("created"))
    + When("closed" in meta && !(meta["closed"].Str? && DateShaped(meta["closed"].s)), BadShape("closed"))
    + When("claimed-at" in meta && !(meta["claimed-at"].Str? && StampShaped(meta["claimed-at"].s)), BadShape("claimed-at"))
  }

  /** `priority` and `resolution` are one of a few words, `claimed-by` and `parent` are one value. */
  function ValueProblems(meta: Meta): set<Problem> {
    When("priority" in meta && !(meta["priority"].Str? && Allowed("priority", meta["priority"].s)), NotAllowed("priority"))
    + When("resolution" in meta && !(meta["resolution"].Str? && Allowed("resolution", meta["resolution"].s)),
           NotAllowed("resolution"))
    + When("claimed-by" in meta && !meta["claimed-by"].Str?, NotSingle("claimed-by"))
    + When("parent" in meta && !meta["parent"].Str?, NotSingle("parent"))
  }

  predicate NameList(v: Value) {
    v.Str? || (v.List? && forall item <- v.items :: item.Str?)
  }

  /** `tags` and `blocked-by` are lists of values, and the two claim fields go together. */
  function ListProblems(meta: Meta): set<Problem> {
    When("tags" in meta && !NameList(meta["tags"]), NotAList("tags"))
    + When("blocked-by" in meta && !NameList(meta["blocked-by"]), NotAList("blocked-by"))
    + When(("claimed-by" in meta) != ("claimed-at" in meta), ClaimIncomplete)
  }

  function FieldProblems(meta: Meta): set<Problem> {
    ShapeProblems(meta) + ValueProblems(meta) + ListProblems(meta)
  }

  function StatusProblems(place: Place, meta: Meta): set<Problem> {
    if place.closed then
      (set k | k in {"closed", "resolution"} && k !in meta :: ClosedWithout(k))
      + match Get(meta, "closed")
        case None => {}
        case Some(date) => if DateShaped(date) && date[..7] != place.month then {WrongMonth(date)} else {}
    else
      set k | k in {"closed", "resolution"} && k in meta :: OpenWith(k)
  }

  function LinkProblems(w: World, tree: Tree, place: Place, meta: Meta): set<Problem> {
    (match Get(meta, "parent")
     case None => {}
     case Some(id) =>
       (match IssueType(w, tree, id)
        case None => {ParentMissing(id)}
        case Some(t) => if t != "epic" then {ParentNotEpic(id)} else {})
       + if TypeOf(place.id) == "epic" then {EpicWithParent} else {})
    + set id | id in GetList(meta, "blocked-by") && IssueType(w, tree, id).None? :: BlockerMissing(id)
  }

  function FileProblems(w: World, tree: Tree, value: string): set<Problem> {
    var ref := w.fileRef(value);
    match FileLines(w, tree, ref.rel)
    case None => {RefFileMissing(ref.rel)}
    case Some(n) =>
      var count := if n < 0 then 0 else n;
      if ref.lines.Some? && !(1 <= ref.lines.value.0 <= ref.lines.value.1 <= count)
      then {RefLinesOutside(value, ref.rel, count)} else {}
  }

  function RefProblems(w: World, tree: Tree, closed: bool, ref: Value): set<Problem> {
    if !(ref.Mapping? && |ref.entries| == 1 && ref.entries[0].0 in ["file", "test", "symbol", "issue"]
         && ref.entries[0].1.Str?) then {BadRef(ref)}
    else
      var (kind, value) := (ref.entries[0].0, ref.entries[0].1.s);
      if kind == "issue" then if IssueType(w, tree, value).None? then {RefIssueMissing(value)} else {}
      else if kind == "file" && !closed then FileProblems(w, tree, value)
      else {}
  }

  function RefsProblems(w: World, tree: Tree, closed: bool, meta: Meta): set<Problem> {
    if "refs" !in meta then {}
    else if !meta["refs"].List? then {RefsNotList}
    else set ref, p | ref in meta["refs"].items && p in RefProblems(w, tree, closed, ref) :: p
  }

  /** `_check_issue` of the text `text` at `path`, the issues and files it names looked up in `tree`. */
  function Problems(w: World, tree: Tree, path: Path, text: string): set<Problem> {
    var meta := Read(w, text).0;
    var place := w.place(path);
    LoadErrors(w, path, text) + FieldProblems(meta) + StatusProblems(place, meta)
    + LinkProblems(w, tree, place, meta) + RefsProblems(w, tree, place.closed, meta)
  }

  // --- what a check does not depend on ------------------------------------------------------------

  /** A message that counts the lines of `path`. */
  predicate CountsLines(p: Problem, path: Path) {
    p.RefLinesOutside? && p.rel == path
  }

  /** Changing the text of one file changes no lookup of an issue. */
  lemma SameIssues(w: World, a: Tree, b: Tree, name: string)
    requires a.Keys == b.Keys
    ensures IssueType(w, a, name) == IssueType(w, b, name)
  {
    assert forall p :: p in a <==> p in a.Keys;
    assert forall p :: p in b <==> p in b.Keys;
  }

  lemma SameFile(w: World, a: Tree, b: Tree, path: Path, value: string, p: Problem)
    requires a.Keys == b.Keys && (forall q <- a | q != path :: a[q] == b[q])
    requires p in FileProblems(w, b, value) && !CountsLines(p, path)
    ensures p in FileProblems(w, a, value)
  {
    assert forall q :: q in a <==> q in a.Keys;
    assert forall q :: q in b <==> q in b.Keys;
  }

  /** Editing one file gives another issue no message, except about a line range in the edited file. */
  lemma OthersUnaffected(w: World, a: Tree, b: Tree, edited: Path, path: Path, text: string, p: Problem)
    requires a.Keys == b.Keys && (forall q <- a | q != edited :: a[q] == b[q])
    requires p in Problems(w, b, path, text) && !CountsLines(p, edited)
    ensures p in Problems(w, a, path, text)
  {
    hide FieldProblems, StatusProblems, LoadErrors, FileProblems, IssueType, Read;
    var meta, place := Read(w, text).0, w.place(path);
    if p in LinkProblems(w, b, place, meta) {
      LinksUnaffected(w, a, b, place, meta);
    } else if p in RefsProblems(w, b, place.closed, meta) && meta["refs"].List? {
      var ref :| ref in meta["refs"].items && p in RefProblems(w, b, place.closed, ref);
      RefUnaffected(w, a, b, edited, place.closed, ref, p);
      assert p in RefsProblems(w, a, place.closed, meta);
    }
  }

  lemma LinksUnaffected(w: World, a: Tree, b: Tree, place: Place, meta: Meta)
    requires a.Keys == b.Keys
    ensures LinkProblems(w, a, place, meta) == LinkProblems(w, b, place, meta)
  {
    hide IssueType, Get, GetList, TypeOf;
    forall name ensures IssueType(w, a, name) == IssueType(w, b, name) {
      SameIssues(w, a, b, name);
    }
  }

  lemma RefUnaffected(w: World, a: Tree, b: Tree, edited: Path, closed: bool, ref: Value, p: Problem)
    requires a.Keys == b.Keys && (forall q <- a | q != edited :: a[q] == b[q])
    requires p in RefProblems(w, b, closed, ref) && !CountsLines(p, edited)
    ensures p in RefProblems(w, a, closed, ref)
  {
    hide FileProblems, IssueType;
    if ref.Mapping? && |ref.entries| == 1 && ref.entries[0].1.Str? {
      SameIssues(w, a, b, ref.entries[0].1.s);
      if p in FileProblems(w, b, ref.entries[0].1.s) {
        SameFile(w, a, b, edited, ref.entries[0].1.s, p);
      }
    }
  }

  // --- the rules, as a reader of the guide knows them ---------------------------------------------

  predicate IsDigit(s: string, i: nat) {
    i < |s| && '0' <= s[i] <= '9'
  }

  /** `yyyy-mm-dd` at the start. */
  predicate Day(s: string) {
    && IsDigit(s, 0) && IsDigit(s, 1) && IsDigit(s, 2) && IsDigit(s, 3) && |s| > 4 && s[4] == '-'
    && IsDigit(s, 5) && IsDigit(s, 6) && |s| > 7 && s[7] == '-' && IsDigit(s, 8) && IsDigit(s, 9)
  }

  /** `Thh:mm` behind the day. */
  predicate Minute(s: string) {
    |s| > 15 && s[10] == 'T' && IsDigit(s, 11) && IsDigit(s, 12) && s[13] == ':' && IsDigit(s, 14) && IsDigit(s, 15)
  }

  predicate IsDate(v: Value) {
    v.Str? && |v.s| == 10 && Day(v.s)
  }

  /** `yyyy-mm-ddThh:mmZ`, with seconds or without */
  predicate IsStamp(v: Value) {
    && v.Str? && Day(v.s) && Minute(v.s)
    && (|| (|v.s| == 17 && v.s[16] == 'Z')
        || (|v.s| == 20 && v.s[16] == ':' && IsDigit(v.s, 17) && IsDigit(v.s, 18) && v.s[19] == 'Z'))
  }

  /** One name, or a list of names. */
  predicate IsNames(v: Value) {
    match v
    case Str(_) => true
    case List(items) => forall i | 0 <= i < |items| :: items[i].Str?
    case Mapping(_) => false
  }

  /** The fields have their shapes, and a claim has both its fields. */
  predicate FieldsOk(meta: Meta) {
    && ("created" in meta ==> IsDate(meta["created"]))
    && ("closed" in meta ==> IsDate(meta["closed"]))
    && ("claimed-at" in meta ==> IsStamp(meta["claimed-at"]))
    && ("priority" in meta ==> meta["priority"] in {Str("next"), Str("normal"), Str("someday")})
    && ("resolution" in meta ==>
          meta["resolution"] in {Str("fixed"), Str("wontfix"), Str("duplicate"), Str("obsolete")})
    && ("claimed-by" in meta ==> meta["claimed-by"].Str?)
    && ("parent" in meta ==> meta["parent"].Str?)
    && ("tags" in meta ==> IsNames(meta["tags"]))
    && ("blocked-by" in meta ==> IsNames(meta["blocked-by"]))
    && ("claimed-by" in meta <==> "claimed-at" in meta)
  }

  lemma DateIs(v: Value)
    ensures IsDate(v) <==> v.Str? && DateShaped(v.s)
  {
  }

  lemma ShortStampIs(s: string)
    requires |s| == 17
    ensures Shaped(s, "dddd-dd-ddTdd:ddZ") <==> Day(s) && Minute(s) && s[16] == 'Z'
  {
  }

  lemma LongStampIs(s: string)
    requires |s| == 20
    ensures Shaped(s, "dddd-dd-ddTdd:dd:ddZ") <==>
      Day(s) && Minute(s) && s[16] == ':' && IsDigit(s, 17) && IsDigit(s, 18) && s[19] == 'Z'
  {
  }

  lemma OtherLength(s: string)
    ensures Shaped(s, "dddd-dd-ddTdd:ddZ") ==> |s| == 17
    ensures Shaped(s, "dddd-dd-ddTdd:dd:ddZ") ==> |s| == 20
  {
  }

  lemma StampIs(v: Value)
    ensures IsStamp(v) <==> v.Str? && StampShaped(v.s)
  {
    hide Shaped, Day, Minute, IsDigit;
    if v.Str? {
      OtherLength(v.s);
      if |v.s| == 17 {
        ShortStampIs(v.s);
      } else if |v.s| == 20 {
        LongStampIs(v.s);
      }
    }
  }

  lemma ShapesAccepted(meta: Meta)
    ensures ShapeProblems(meta) == {} <==>
      && ("created" in meta ==> IsDate(meta["created"])) && ("closed" in meta ==> IsDate(meta["closed"]))
      && ("claimed-at" in meta ==> IsStamp(meta["claimed-at"]))
  {
    hide IsDate, IsStamp, DateShaped, StampShaped;
    if "created" in meta {
      DateIs(meta["created"]);
    }
    if "closed" in meta {
      DateIs(meta["closed"]);
    }
    if "claimed-at" in meta {
      StampIs(meta["claimed-at"]);
    }
  }

  lemma ValuesAccepted(meta: Meta)
    ensures ValueProblems(meta) == {} <==>
      && ("priority" in meta ==> meta["priority"] in {Str("next"), Str("normal"), Str("someday")})
      && ("resolution" in meta ==>
            meta["resolution"] in {Str("fixed"), Str("wontfix"), Str("duplicate"), Str("obsolete")})
      && ("claimed-by" in meta ==> meta["claimed-by"].Str?) && ("parent" in meta ==> meta["parent"].Str?)
  {
    hide Allowed;
    AllowedIs();
  }

  lemma FieldsAccepted(meta: Meta)
    ensures FieldProblems(meta) == {} <==> FieldsOk(meta)
  {
    hide ShapeProblems, ValueProblems, IsDate, IsStamp;
    ShapesAccepted(meta);
    ValuesAccepted(meta);
  }

  lemma AllowedIs()
    ensures forall s :: Allowed("priority", s) <==> s == "next" || s == "normal" || s == "someday"
    ensures forall s :: Allowed("resolution", s) <==> s == "fixed" || s == "wontfix" || s == "duplicate" || s == "obsolete"
  {
  }

  lemma {:induction false} TypeIs(t: string, slug: string)
    requires '-' !in t
    ensures TypeOf(t + "-" + slug) == t
  {
    var id := t + "-" + slug;
    if t == "" {
      assert id[0] == '-';
    } else {
      TypeIs(t[1..], slug);
      assert id[1..] == t[1..] + "-" + slug && id[0] == t[0] && t[0] in t;
      assert t == [t[0]] + t[1..];
    }
  }

  /** A name without a qualifier, and a file in the tree that has it. */
  lemma OwnIssueIsFound(w: World, tree: Tree, name: string, path: Path, t: string, slug: string)
    requires '-' !in t && w.qid(name) == Some(Qid(None, t + "-" + slug))
    requires path in tree && w.isIssue(path) && w.place(path).id == t + "-" + slug
    ensures IssueType(w, tree, name) == Some(t)
  {
    hide TypeOf;
    TypeIs(t, slug);
  }

  /** A name qualified by this repository's own name is looked up in the tree, too, and one of another repository there. */
  lemma QualifiedName(w: World, tree: Tree, name: string, repo: string, id: string)
    requires w.qid(name) == Some(Qid(Some(repo), id))
    ensures !w.isOwn(repo) ==> IssueType(w, tree, name) == w.foreign(Qid(Some(repo), id))
    ensures w.isOwn(repo) ==>
      (IssueType(w, tree, name).Some? <==> exists path :: path in tree && w.isIssue(path) && w.place(path).id == id)
  {
  }

  lemma OwnIssueIsMissing(w: World, tree: Tree, name: string, id: string)
    requires w.qid(name) == Some(Qid(None, id))
    requires forall path <- tree :: !(w.isIssue(path) && w.place(path).id == id)
    ensures IssueType(w, tree, name) == None
  {
  }

  /** A directory is there when a file below it is. */
  lemma DirectoryIsThere(w: World, tree: Tree, dir: Path, name: string)
    requires dir !in tree && dir + "/" + name in tree
    ensures FileLines(w, tree, dir) == Some(-1)
  {
    assert dir + "/" <= dir + "/" + name;
  }

  /** The first line after the frontmatter that is not blank is the title. */
  predicate HasTitle(body: Lines) {
    exists k | 0 <= k < |body| :: "# " <= body[k] && forall i | 0 <= i < k :: Blank(body[i])
  }

  lemma HasTitleIs(body: Lines)
    ensures Titled(body) <==> HasTitle(body)
  {
    hide Blank, DropBlank;
    var k := DropBlankDrops(body);
    assert forall i | 0 <= i < k :: body[i] == body[..k][i];
    if HasTitle(body) {
      var j :| 0 <= j < |body| && "# " <= body[j] && forall i | 0 <= i < j :: Blank(body[i]);
      assert !Blank(body[j]) by { TitleIsFilled(body[j]); }
      assert k == j;
    }
  }

  lemma TitleIsFilled(line: string)
    requires "# " <= line
    ensures !Blank(line)
  {
    assert line[0] == '#' && !IsSpace('#');
  }

  /** The file lies where an issue may, its frontmatter is closed and a mapping, and it has a title. */
  predicate FileOk(w: World, path: Path, text: string) {
    var lines := Split(text);
    && w.place(path).errors == {}
    && (lines != [] && Delimiter(lines[0]) ==> End(lines).Some?)
    && (End(lines).Some? ==> w.yaml(Front(lines)).Fields?)
    && HasTitle(Body(lines))
  }

  function FieldsOf(w: World, text: string): Meta {
    var lines := Split(text);
    if End(lines).Some? && w.yaml(Front(lines)).Fields? then w.yaml(Front(lines)).meta else map[]
  }

  /** A closed issue says when and how, in the folder of its month; an open one says neither. */
  predicate StatusOk(place: Place, meta: Meta) {
    if place.closed
    then "closed" in meta && "resolution" in meta && (IsDate(meta["closed"]) ==> meta["closed"].s[..7] == place.month)
    else "closed" !in meta && "resolution" !in meta
  }

  /** Every name in `blocked-by`. */
  predicate BlockedBy(meta: Meta, id: string) {
    "blocked-by" in meta && match meta["blocked-by"]
      case Str(s) => s == id != ""
      case List(items) => Str(id) in items
      case Mapping(_) => false
  }

  /** A parent is an epic, an epic has none, and what blocks the issue exists. */
  ghost predicate LinksOk(w: World, tree: Tree, place: Place, meta: Meta) {
    && ("parent" in meta && meta["parent"].Str? && meta["parent"].s != "" ==>
          IssueType(w, tree, meta["parent"].s) == Some("epic") && TypeOf(place.id) != "epic")
    && forall id | BlockedBy(meta, id) :: IssueType(w, tree, id).Some?
  }

  /** A ref is a kind and a value; an issue it names exists, and so does a file with its lines while the issue is open. */
  predicate RefOk(w: World, tree: Tree, closed: bool, ref: Value) {
    && ref.Mapping? && |ref.entries| == 1 && ref.entries[0].1.Str?
    && var (kind, value) := (ref.entries[0].0, ref.entries[0].1.s);
       && (kind == "file" || kind == "test" || kind == "symbol" || kind == "issue")
       && (kind == "issue" ==> IssueType(w, tree, value).Some?)
       && (kind == "file" && !closed ==>
             var lines := FileLines(w, tree, w.fileRef(value).rel);
             && lines.Some?
             && (w.fileRef(value).lines.Some? ==>
                   var (first, last) := w.fileRef(value).lines.value;
                   1 <= first && first <= last && last <= lines.value))
  }

  predicate RefsOk(w: World, tree: Tree, closed: bool, meta: Meta) {
    "refs" in meta ==> meta["refs"].List? && forall i | 0 <= i < |meta["refs"].items| :: RefOk(w, tree, closed, meta["refs"].items[i])
  }

  /** Everything an issue must meet. */
  ghost predicate Accepted(w: World, tree: Tree, path: Path, text: string) {
    var place, meta := w.place(path), FieldsOf(w, text);
    && FileOk(w, path, text) && FieldsOk(meta) && StatusOk(place, meta)
    && LinksOk(w, tree, place, meta) && RefsOk(w, tree, place.closed, meta)
  }

  lemma FileAccepted(w: World, path: Path, text: string)
    ensures LoadErrors(w, path, text) == {} <==> FileOk(w, path, text)
    ensures Read(w, text).0 == FieldsOf(w, text)
  {
    hide HasTitle, Titled, Split, Front, Body, Delimiter, FindClose;
    HasTitleIs(Body(Split(text)));
    var places := set e | e in w.place(path).errors :: BadPlace(e);
    assert places == {} <==> w.place(path).errors == {} by {
      forall e | e in w.place(path).errors ensures BadPlace(e) in places {}
    }
    var titles: set<Problem> := if Titled(Body(Split(text))) then {} else {NoTitle};
    assert LoadErrors(w, path, text) == places + Read(w, text).1 + titles;
  }

  lemma StatusAccepted(place: Place, meta: Meta)
    ensures StatusProblems(place, meta) == {} <==> StatusOk(place, meta)
  {
    hide IsDate, DateShaped;
    if "closed" in meta {
      DateIs(meta["closed"]);
      if IsDate(meta["closed"]) {
        DateIsFilled(meta["closed"]);
      }
    }
    if place.closed {
      var missing := set k | k in {"closed", "resolution"} && k !in meta :: ClosedWithout(k);
      assert missing == {} <==> "closed" in meta && "resolution" in meta by {
        assert "closed" !in meta ==> ClosedWithout("closed") in missing;
        assert "resolution" !in meta ==> ClosedWithout("resolution") in missing;
      }
    } else {
      var extra := set k | k in {"closed", "resolution"} && k in meta :: OpenWith(k);
      assert extra == {} <==> "closed" !in meta && "resolution" !in meta by {
        assert "closed" in meta ==> OpenWith("closed") in extra;
        assert "resolution" in meta ==> OpenWith("resolution") in extra;
      }
    }
  }

  lemma DateIsFilled(v: Value)
    requires IsDate(v)
    ensures v.Str? && v.s != ""
  {
  }

  lemma {:induction false} StrsOfIs(items: seq<Value>, id: string)
    ensures id in StrsOf(items) <==> Str(id) in items
  {
    if items != [] {
      StrsOfIs(items[1..], id);
      assert items == [items[0]] + items[1..];
    }
  }

  lemma BlockedByIs(meta: Meta, id: string)
    ensures id in GetList(meta, "blocked-by") <==> BlockedBy(meta, id)
  {
    if "blocked-by" in meta && meta["blocked-by"].List? {
      StrsOfIs(meta["blocked-by"].items, id);
    }
  }

  lemma LinksAccepted(w: World, tree: Tree, place: Place, meta: Meta)
    ensures LinkProblems(w, tree, place, meta) == {} <==> LinksOk(w, tree, place, meta)
  {
    hide IssueType, TypeOf, GetList, BlockedBy;
    forall id ensures id in GetList(meta, "blocked-by") <==> BlockedBy(meta, id) {
      BlockedByIs(meta, id);
    }
    var missing := set id | id in GetList(meta, "blocked-by") && IssueType(w, tree, id).None? :: BlockerMissing(id);
    assert missing == {} <==> forall id | BlockedBy(meta, id) :: IssueType(w, tree, id).Some? by {
      forall id | BlockedBy(meta, id) && IssueType(w, tree, id).None? ensures BlockerMissing(id) in missing {}
    }
  }

  lemma RefAccepted(w: World, tree: Tree, closed: bool, ref: Value)
    ensures RefProblems(w, tree, closed, ref) == {} <==> RefOk(w, tree, closed, ref)
  {
    hide IssueType, FileLines;
  }

  lemma RefsAccepted(w: World, tree: Tree, closed: bool, meta: Meta)
    ensures RefsProblems(w, tree, closed, meta) == {} <==> RefsOk(w, tree, closed, meta)
  {
    hide RefProblems, RefOk;
    if "refs" in meta && meta["refs"].List? {
      var items := meta["refs"].items;
      forall i | 0 <= i < |items| ensures RefProblems(w, tree, closed, items[i]) == {} <==> RefOk(w, tree, closed, items[i]) {
        RefAccepted(w, tree, closed, items[i]);
      }
      if !RefsOk(w, tree, closed, meta) {
        var i :| 0 <= i < |items| && !RefOk(w, tree, closed, items[i]);
        var p :| p in RefProblems(w, tree, closed, items[i]);
        assert items[i] in items;
        assert p in RefsProblems(w, tree, closed, meta);
      }
    }
  }

  /** The check has nothing to say exactly about the issues the rules accept. */
  lemma NoProblemsIffAccepted(w: World, tree: Tree, path: Path, text: string)
    ensures Problems(w, tree, path, text) == {} <==> Accepted(w, tree, path, text)
  {
    hide LoadErrors, FieldProblems, StatusProblems, LinkProblems, RefsProblems, Read, FieldsOf, FileOk, FieldsOk, StatusOk, LinksOk, RefsOk;
    var place, meta := w.place(path), Read(w, text).0;
    FileAccepted(w, path, text);
    FieldsAccepted(meta);
    StatusAccepted(place, meta);
    LinksAccepted(w, tree, place, meta);
    RefsAccepted(w, tree, place.closed, meta);
  }
}
