/** Summaries of chats. Each summary is a Markdown file that opens with a
    frontmatter block between two `---` rules, then a title block, another
    rule and the summary text; the index maps each summary id to its
    metadata and file path. */
module SummaryStore {
  import opened Wrappers
  import opened Text
  import opened Store
  import opened Sorting
  import ChatStore

  /** The metadata `create_summary` returns. */
  datatype Summary = Summary(summaryId: string, name: string, originalChatId: string, kind: string,
                             provider: string, createdAt: string, project: Option<string>, wordCount: nat)

  /** An index entry. `summaryId` is absent in entries written without one. */
  datatype SummaryInfo = SummaryInfo(summaryId: Option<string>, name: string, filePath: string, createdAt: string,
                                     kind: string, provider: string, originalChatId: string,
                                     project: Option<string>, wordCount: nat)

  /** What `load_summary` returns: the entry and the text read back. */
  datatype LoadedSummary = LoadedSummary(info: SummaryInfo, content: string)

  function CreatedAt(s: SummaryInfo): string {
    s.createdAt
  }

  // ---------------------------------------------------------------------------
  // The file

  /** The folder of a summary's file: its project's `summaries` folder when
      it belongs to a project, the shared one otherwise. */
  function SummariesDir(base: string, project: Option<string>): string {
    if Truthy(project) then base + "/projects/" + project.value + "/summaries"
    else base + "/summaries"
  }

  /** `_get_summary_file_path`: `<dir>/<stamp>_<name>_summary.md`, with the
      same time stamp as a chat file. */
  function SummaryFilePath(base: string, createdAt: string, name: string, project: Option<string>): string {
    SummariesDir(base, project) + "/" + ChatStore.FileStamp(createdAt) + ("_" + name + "_summary.md")
  }

  /** A summary's file is named after it, and lies under `projects/` exactly
      when its project is set. */
  lemma SummaryFilePathPlace(base: string, createdAt: string, name: string, project: Option<string>)
    ensures IsSuffix("_" + name + "_summary.md", SummaryFilePath(base, createdAt, name, project))
    ensures IsPrefix(base + "/projects/", SummaryFilePath(base, createdAt, name, project)) <==> Truthy(project)
  {
    var dir := SummariesDir(base, project);
    var front := dir + "/" + ChatStore.FileStamp(createdAt);
    var p := SummaryFilePath(base, createdAt, name, project);
    SuffixAppend(front, "_" + name + "_summary.md");
    Peel(dir + "/", ChatStore.FileStamp(createdAt));
    Peel(dir, "/");
    Peel(front, "_" + name + "_summary.md");
    PrefixTrans(dir, dir + "/", front);
    PrefixTrans(dir, front, p);
    var projects := base + "/projects/";
    if Truthy(project) {
      Peel(projects, project.value);
      Peel(projects + project.value, "/summaries");
      PrefixTrans(projects, projects + project.value, dir);
      PrefixTrans(projects, dir, p);
    } else {
      assert dir[|base| + 1] == 's' && projects[|base| + 1] == 'p';
      PrefixesDisagree(dir, projects, p, |base| + 1);
    }
  }

  /** The rule that opens and closes the frontmatter. */
  const Rule := "---\n"

  /** One `key: value` line of the frontmatter. */
  function Line(key: string, value: string): string {
    key + ": " + value + "\n"
  }

  /** `summary.get('project') or 'null'`. */
  function ProjectText(project: Option<string>): string {
    if Truthy(project) then project.value else "null"
  }

  function Frontmatter(s: Summary): string {
    Line("summary_id", s.summaryId) + Line("name", s.name) + Line("original_chat_id", s.originalChatId)
    + Line("type", s.kind) + Line("provider", s.provider) + Line("created_at", s.createdAt)
    + Line("project", ProjectText(s.project)) + Line("word_count", NatToString(s.wordCount))
  }

  /** The title block that follows the frontmatter, up to and including the
      rule before the summary text. */
  function Heading(s: Summary): string {
    "# Summary: " + s.name + "\n\n"
    + "**Type:** " + Capitalize(s.kind) + "  \n"
    + "**Generated:** " + Take(s.createdAt, 10) + "  \n"
    + "**Original Chat:** " + s.originalChatId + "  \n\n"
    + Rule + "\n"
  }

  lemma HeadingStart(s: Summary)
    ensures Heading(s) != [] && Heading(s)[0] == '#'
  {
  }

  /** Everything after the frontmatter's closing rule. */
  function Body(s: Summary, content: string): string {
    "\n" + Heading(s) + content + "\n"
  }

  /** The file `create_summary` writes. */
  function Document(s: Summary, content: string): string {
    Rule + Frontmatter(s) + Rule + Body(s, content)
  }

  /** `load_summary`'s reading of a file: with at least two rules,
      everything after the second one, rules included, stripped; otherwise
      the whole text. */
  function ExtractContent(full: string): string {
    var parts := SplitOn(full, Rule);
    if |parts| >= 3 then Strip(Join(Rule, parts[2..])) else full
  }

  // ---------------------------------------------------------------------------
  // Reading a written summary back

  /** No line of `y` ends in `---`: the text holds no rule. */
  ghost predicate NoRule(y: string) {
    forall i :: 3 <= i < |y| && y[i] == '\n' ==> y[i - 3..i] != "---"
  }

  /** A value that keeps its frontmatter line a single line that is not a
      rule. */
  ghost predicate FieldSafe(v: string) {
    '\n' !in v && !IsSuffix("---", v)
  }

  /** The frontmatter values of a summary are safe. */
  ghost predicate SafeFields(s: Summary) {
    && FieldSafe(s.summaryId) && FieldSafe(s.name) && FieldSafe(s.originalChatId) && FieldSafe(s.kind)
    && FieldSafe(s.provider) && FieldSafe(s.createdAt) && (Truthy(s.project) ==> FieldSafe(s.project.value))
  }

  /** In a text without a rule, the first rule is the one that follows it. */
  lemma RuleFirst(y: string, rest: string)
    requires NoRule(y)
    ensures IndexOf(y + Rule + rest, Rule) == Some(|y|)
  {
    var s := y + Rule + rest;
    assert s[..|y|] == y && s[|y|..|y| + 4] == Rule;
    assert s[|y|..][..4] == Rule;
    forall j | 0 <= j < |y| ensures !IsPrefix(Rule, s[j..]) {
      NoRuleAt(y, s, j);
    }
    var r := IndexOf(s, Rule);
    assert r.Some?;
    assert s[r.value..][..4] == s[r.value..r.value + 4];
    assert r.value >= |y|;
  }

  /** No rule starts inside a text without a rule, even one that a rule
      follows. */
  lemma NoRuleAt(y: string, s: string, j: nat)
    requires NoRule(y) && j < |y| && |y| + 4 <= |s|
    requires s[..|y|] == y && s[|y|..|y| + 4] == Rule
    ensures !IsPrefix(Rule, s[j..])
  {
    var w := s[j..j + 4];
    assert s[j..][..4] == w;
    if j + 3 < |y| {
      assert w[3] == y[j + 3];
      assert y[j..j + 3] == s[j..j + 3] == w[..3];
    } else {
      assert w[3] == s[|y|..|y| + 4][j + 3 - |y|];
    }
  }

  /** Two texts without a rule, the first ending a line, make one. */
  lemma NoRuleAppend(a: string, b: string)
    requires NoRule(a) && NoRule(b) && a != [] && a[|a| - 1] == '\n'
    ensures NoRule(a + b)
  {
    var s := a + b;
    forall i | 3 <= i < |s| && s[i] == '\n' ensures s[i - 3..i] != "---" {
      if i < |a| {
        assert s[i - 3..i] == a[i - 3..i];
      } else if i - |a| >= 3 {
        assert s[i - 3..i] == b[i - |a| - 3..i - |a|];
      } else {
        assert s[i - 3..i][|a| + 2 - i] == a[|a| - 1];
      }
    }
  }

  /** A frontmatter line with a safe value holds no rule. */
  lemma LineNoRule(key: string, v: string)
    requires key != [] && '\n' !in key && FieldSafe(v)
    ensures NoRule(Line(key, v))
  {
    var s := Line(key, v);
    var front := key + ": " + v;
    assert s == front + "\n";
    forall i | 0 <= i < |front| ensures front[i] != '\n' {
      if i < |key| {
        assert front[i] == key[i] && key[i] in key;
      } else if i < |key| + 2 {
        assert front[i] == ": "[i - |key|];
      } else {
        assert front[i] == v[i - |key| - 2] && v[i - |key| - 2] in v;
      }
    }
    forall i | 3 <= i < |s| && s[i] == '\n' ensures s[i - 3..i] != "---" {
      assert i == |front|;
      if |v| >= 3 {
        assert s[i - 3..i] == v[|v| - 3..];
      } else {
        assert s[i - 3..i][|key| + 1 - (i - 3)] == ' ';
      }
    }
  }

  lemma DigitsSafe(n: nat)
    ensures FieldSafe(NatToString(n))
  {
    var d := NatToString(n);
    assert forall i :: 0 <= i < |d| ==> IsDigit(d[i]);
    if |d| >= 3 {
      assert d[|d| - 3..][0] == d[|d| - 3];
    }
  }

  /** Adding a safe line to rule-free text that ends a line keeps it so. */
  lemma NoRuleLine(a: string, key: string, v: string)
    requires NoRule(a) && (a == [] || a[|a| - 1] == '\n')
    requires key != [] && '\n' !in key && FieldSafe(v)
    ensures var b := a + Line(key, v); NoRule(b) && b != [] && b[|b| - 1] == '\n'
  {
    LineNoRule(key, v);
    if a == [] {
      assert a + Line(key, v) == Line(key, v);
    } else {
      NoRuleAppend(a, Line(key, v));
    }
  }

  /** The first four frontmatter lines hold no rule and end a line. */
  lemma FrontmatterTopNoRule(s: Summary)
    requires SafeFields(s)
    ensures var f := Line("summary_id", s.summaryId) + Line("name", s.name)
                     + Line("original_chat_id", s.originalChatId) + Line("type", s.kind);
            NoRule(f) && f[|f| - 1] == '\n'
  {
    NoRuleLine([], "summary_id", s.summaryId);
    var f := Line("summary_id", s.summaryId);
    assert [] + f == f;
    NoRuleLine(f, "name", s.name);
    f := f + Line("name", s.name);
    NoRuleLine(f, "original_chat_id", s.originalChatId);
    f := f + Line("original_chat_id", s.originalChatId);
    NoRuleLine(f, "type", s.kind);
  }

  lemma FrontmatterNoRule(s: Summary)
    requires SafeFields(s)
    ensures NoRule(Frontmatter(s))
  {
    FrontmatterTopNoRule(s);
    var f := Line("summary_id", s.summaryId) + Line("name", s.name)
             + Line("original_chat_id", s.originalChatId) + Line("type", s.kind);
    NoRuleLine(f, "provider", s.provider);
    f := f + Line("provider", s.provider);
    NoRuleLine(f, "created_at", s.createdAt);
    f := f + Line("created_at", s.createdAt);
    assert FieldSafe("null");
    NoRuleLine(f, "project", ProjectText(s.project));
    f := f + Line("project", ProjectText(s.project));
    DigitsSafe(s.wordCount);
    NoRuleLine(f, "word_count", NatToString(s.wordCount));
  }

  /** A file that opens with a rule-free block between two rules reads
      back as everything after the second rule, stripped. */
  lemma {:induction false} SkipFrontmatter(f: string, b: string)
    requires NoRule(f)
    ensures ExtractContent(Rule + f + Rule + b) == Strip(b)
  {
    var after := f + Rule + b;
    var doc := Rule + after;
    assert Rule + f + Rule + b == doc;
    Peel(Rule, after);
    SplitOnFound(doc, Rule);
    RuleFirst(f, b);
    SplitOnFound(after, Rule);
    assert after[|f| + 4..] == b;
    var tail := SplitOn(b, Rule);
    DropTwo(doc[..0], after[..|f|], tail);
    JoinSplitOn(b, Rule);
  }

  lemma DropTwo<T>(x: T, y: T, tail: seq<T>)
    ensures |[x] + ([y] + tail)| == |tail| + 2 && ([x] + ([y] + tail))[2..] == tail
  {
  }

  /** Reading a written summary gives back everything after its frontmatter,
      stripped: so long as no frontmatter value breaks a line or ends in a
      rule, the frontmatter is skipped exactly, whatever the summary text
      holds. */
  lemma LoadReadsBody(s: Summary, content: string)
    requires SafeFields(s)
    ensures ExtractContent(Document(s, content)) == Strip(Body(s, content))
  {
    FrontmatterNoRule(s);
    SkipFrontmatter(Frontmatter(s), Body(s, content));
  }

  /** For summary text that starts a line's worth of content and ends in a
      visible character, what is read back is the title block followed by
      the summary text itself. */
  lemma LoadReadsSummary(s: Summary, content: string)
    requires SafeFields(s)
    requires content != [] && !IsSpace(content[|content| - 1])
    ensures ExtractContent(Document(s, content)) == Heading(s) + content
  {
    LoadReadsBody(s, content);
    var x := Heading(s) + content;
    HeadingStart(s);
    ConcatEnds(Heading(s), content);
    Assoc("\n", Heading(s), content);
    StripFramed(x);
  }

  /** `len(summary_content.split())` counts words: text made of words joined
      by single spaces has as many as were joined. */
  lemma WordCountOfWords(words: seq<string>)
    requires forall w | w in words :: w != [] && NoSpace(w)
    ensures |Split(Join(" ", words))| == |words|
  {
    SplitJoin(words);
  }

  // ---------------------------------------------------------------------------
  // Lookups

  /** `summary['name'] == key`. */
  function NameEquals(key: string): (string, SummaryInfo) -> bool {
    (id: string, s: SummaryInfo) => s.name == key
  }

  /** `sid == key or info.get('name') == key`. */
  function IdOrName(key: string): (string, SummaryInfo) -> bool {
    (id: string, s: SummaryInfo) => id == key || s.name == key
  }

  /** `get_summary`: the summary stored under `key`; otherwise the first
      one, in index order, named `key`. */
  function FindSummary(t: Table<SummaryInfo>, key: string): (r: Option<SummaryInfo>)
    requires t.Valid()
    ensures key in t.rows ==> r == Some(t.rows[key])
    ensures key !in t.rows && r.Some? ==> r.value.name == key && exists id :: id in t.rows && t.rows[id] == r.value
    ensures key !in t.rows && r.Some? ==>
              exists i :: 0 <= i < |t.keys| && t.rows[t.keys[i]] == r.value
                && forall j | 0 <= j < i :: t.rows[t.keys[j]].name != key
    ensures r.None? <==> key !in t.rows && forall id | id in t.rows :: t.rows[id].name != key
  {
    if key in t.rows then Some(t.rows[key])
    else match FirstIndex(t.keys, t.rows, NameEquals(key))
      case Some(i) => Some(t.rows[t.keys[i]])
      case None => None
  }

  /** The single search loop of `delete_summary`: the id of the first entry,
      in index order, stored under `key` or named `key`. Unlike
      `get_summary`, a name can win over an id that comes later. */
  function DeleteTarget(t: Table<SummaryInfo>, key: string): (r: Option<string>)
    requires t.Valid()
    ensures r.Some? ==> r.value in t.rows && (r.value == key || t.rows[r.value].name == key)
    ensures r.Some? ==> exists i :: 0 <= i < |t.keys| && t.keys[i] == r.value
                          && forall j | 0 <= j < i :: t.keys[j] != key && t.rows[t.keys[j]].name != key
    ensures r.None? <==> key !in t.rows && forall id | id in t.rows :: t.rows[id].name != key
  {
    match FirstIndex(t.keys, t.rows, IdOrName(key))
    case Some(i) => Some(t.keys[i])
    case None =>
      assert forall id | id in t.rows :: exists j :: 0 <= j < |t.keys| && t.keys[j] == id;
      None
  }

  /** `project is None or summary_info.get('project') == project`. */
  predicate InProject(s: SummaryInfo, project: Option<string>) {
    project.None? || s.project == project
  }

  /** The entries `list_summaries` keeps, in their order. */
  function Selected(infos: seq<SummaryInfo>, project: Option<string>): (r: seq<SummaryInfo>)
    ensures |r| <= |infos|
  {
    if infos == [] then []
    else (if InProject(infos[0], project) then [infos[0]] else []) + Selected(infos[1..], project)
  }

  /** The kept entries are exactly those of the project. */
  lemma {:induction false} SelectedMembers(infos: seq<SummaryInfo>, project: Option<string>)
    ensures forall s :: s in Selected(infos, project) <==> s in infos && InProject(s, project)
  {
    if infos != [] {
      SelectedMembers(infos[1..], project);
      assert forall s :: s in infos <==> s == infos[0] || s in infos[1..];
    }
  }

  lemma {:induction false} SelectedAppend(infos: seq<SummaryInfo>, s: SummaryInfo, project: Option<string>)
    ensures Selected(infos + [s], project) == Selected(infos, project) + (if InProject(s, project) then [s] else [])
  {
    if infos == [] {
      assert [s][1..] == [];
    } else {
      assert (infos + [s])[1..] == infos[1..] + [s];
      SelectedAppend(infos[1..], s, project);
    }
  }

  /** `summaries.sort(key=lambda x: x['created_at'], reverse=True)`. */
  function NewestFirst(infos: seq<SummaryInfo>): seq<SummaryInfo> {
    SortDesc(infos, CreatedAt)
  }

  /** What `list_summaries` returns for the entries `infos`. */
  function Listed(infos: seq<SummaryInfo>, project: Option<string>): seq<SummaryInfo> {
    NewestFirst(Selected(infos, project))
  }

  /** The listing holds exactly the project's entries, newest first. */
  lemma ListedSummaries(infos: seq<SummaryInfo>, project: Option<string>)
    ensures forall s :: s in Listed(infos, project) <==> s in infos && InProject(s, project)
    ensures SortedDesc(Listed(infos, project), CreatedAt)
  {
    var kept := Selected(infos, project);
    SelectedMembers(infos, project);
    assert forall s :: s in SortDesc(kept, CreatedAt) <==> s in multiset(kept);
    SortDescSorted(kept, CreatedAt);
  }

  /** `summary_info['summary_id'] = summary_id` when missing. */
  function WithId(key: string, info: SummaryInfo): (r: SummaryInfo)
    ensures r.summaryId.Some?
    ensures info.summaryId.Some? ==> r == info
    ensures info.summaryId.None? ==> r.summaryId == Some(key)
    ensures r == info.(summaryId := r.summaryId)
  {
    if info.summaryId.Some? then info else info.(summaryId := Some(key))
  }

  /** Filling in the ids keeps every key in its place, gives every entry an
      id, leaves an entry that had one as it was and changes nothing else. */
  lemma WithIdsFills(t: Table<SummaryInfo>)
    requires t.Valid()
    ensures var s := Stamped(t, WithId);
            && s.Valid() && s.keys == t.keys
            && (forall k | k in s.rows :: k in t.rows && s.rows[k].summaryId.Some?)
            && (forall k | k in t.rows :: k in s.rows)
            && (forall k | k in t.rows && t.rows[k].summaryId.Some? :: s.rows[k] == t.rows[k])
            && (forall k | k in t.rows && t.rows[k].summaryId.None? ::
                  s.rows[k] == t.rows[k].(summaryId := Some(k)))
  {
  }

  /** The loop of `list_summaries`: it fills in the missing ids and keeps
      the entries of the project, in index order. */
  method StampAndSelect(t: Table<SummaryInfo>, project: Option<string>)
    returns (stamped: Table<SummaryInfo>, kept: seq<SummaryInfo>)
    requires t.Valid()
    ensures stamped == Stamped(t, WithId)
    ensures kept == Selected(Values(stamped), project)
  {
    kept := [];
    var rows := t.rows;
    var i := 0;
    SelectStart(t, project);
    while i < |t.keys|
      invariant i <= |t.keys| && SelectedTo(t, rows, kept, i, project)
    {
      var k := t.keys[i];
      var info := WithId(k, rows[k]);
      SelectStep(t, rows, kept, i, project);
      rows := rows[k := info];
      kept := kept + if InProject(info, project) then [info] else [];
      i := i + 1;
    }
    SelectDone(t, rows, kept, project);
    stamped := Table(t.keys, rows);
  }

  /** After `i` rounds of the loop: the first `i` entries carry their ids
      and `kept` holds the project's entries among them. */
  ghost predicate SelectedTo(t: Table<SummaryInfo>, rows: map<string, SummaryInfo>, kept: seq<SummaryInfo>,
                             i: nat, project: Option<string>)
    requires t.Valid()
  {
    && i <= |t.keys|
    && StampedTo(t, WithId, rows, i)
    && kept == Selected(Values(Stamped(t, WithId))[..i], project)
  }

  lemma SelectStart(t: Table<SummaryInfo>, project: Option<string>)
    requires t.Valid()
    ensures SelectedTo(t, t.rows, [], 0, project)
  {
  }

  lemma SelectStep(t: Table<SummaryInfo>, rows: map<string, SummaryInfo>, kept: seq<SummaryInfo>,
                   i: nat, project: Option<string>)
    requires t.Valid() && i < |t.keys| && SelectedTo(t, rows, kept, i, project)
    ensures t.keys[i] in rows
    ensures var info := WithId(t.keys[i], rows[t.keys[i]]);
            SelectedTo(t, rows[t.keys[i] := info], kept + if InProject(info, project) then [info] else [],
                       i + 1, project)
  {
    StampStep(t, WithId, rows, i);
    StampedPrefix(t, WithId, i);
    SelectedAppend(Values(Stamped(t, WithId))[..i], WithId(t.keys[i], rows[t.keys[i]]), project);
  }

  lemma SelectDone(t: Table<SummaryInfo>, rows: map<string, SummaryInfo>, kept: seq<SummaryInfo>,
                   project: Option<string>)
    requires t.Valid() && SelectedTo(t, rows, kept, |t.keys|, project)
    ensures Table(t.keys, rows) == Stamped(t, WithId)
    ensures kept == Selected(Values(Stamped(t, WithId)), project)
  {
    StampDone(t, WithId, rows);
    var vs := Values(Stamped(t, WithId));
    assert vs[..|t.keys|] == vs;
  }

  // ---------------------------------------------------------------------------
  // The store

  class SummaryManager {
    const base: string
    var index: Table<SummaryInfo>
    /** The text of every file, by path. */
    var files: map<string, string>

    ghost predicate Valid()
      reads this
    {
      index.Valid()
    }

    /** `stored` is the index file as read: `None` when it is missing or
        cannot be parsed, and the store then starts empty. */
    constructor (base: string, stored: Option<Table<SummaryInfo>>, files: map<string, string>)
      requires stored.Some? ==> stored.value.Valid()
      ensures Valid()
      ensures this.base == base && this.files == files
      ensures index == if stored.Some? then stored.value else Empty()
    {
      this.base := base;
      index := if stored.Some? then stored.value else Empty();
      this.files := files;
    }

    /** `create_summary`: writes the document and records the summary under
        `id` (replacing an entry with the same id); the word count is the
        number of whitespace-separated words and the provider defaults to
        "unknown". */
    method CreateSummary(chatName: string, chatId: string, content: string, kind: string,
                         project: Option<string>, provider: Option<string>, id: string, now: string)
      returns (s: Summary)
      requires Valid()
      modifies this
      ensures Valid()
      ensures s == Summary(id, chatName, chatId, kind, if Truthy(provider) then provider.value else "unknown",
                           now, project, |Split(content)|)
      ensures var path := SummaryFilePath(base, now, chatName, project);
              && files == old(files)[path := Document(s, content)]
              && index == Put(old(index), id, SummaryInfo(Some(id), chatName, path, now, kind, s.provider,
                                                          chatId, project, s.wordCount))
    {
      var who := if Truthy(provider) then provider.value else "unknown";
      s := Summary(id, chatName, chatId, kind, who, now, project, |Split(content)|);
      var path := SummaryFilePath(base, now, chatName, project);
      Save(path, Document(s, content));
      Register(id, SummaryInfo(Some(id), chatName, path, now, kind, who, chatId, project, s.wordCount));
    }

    /** Writing the file at `path`. */
    method Save(path: string, text: string)
      modifies this
      ensures files == old(files)[path := text] && index == old(index)
    {
      files := files[path := text];
    }

    /** `index[id] = info`. */
    method Register(id: string, info: SummaryInfo)
      requires Valid()
      modifies this
      ensures Valid()
      ensures index == Put(old(index), id, info) && files == old(files)
    {
      index := Put(index, id, info);
    }

    /** `list_summaries`: the project's entries (every entry when no
        project is given) newest first; entries without an id get theirs
        filled in, in the index itself. */
    method ListSummaries(project: Option<string>) returns (ss: seq<SummaryInfo>)
      requires Valid()
      modifies this
      ensures Valid()
      ensures index == Stamped(old(index), WithId) && files == old(files)
      ensures ss == Listed(Values(index), project)
    {
      var stamped, kept := StampAndSelect(index, project);
      index := stamped;
      ss := NewestFirst(kept);
    }

    /** `get_summary`: the exact id first, then the first exact name. */
    method GetSummary(key: string) returns (s: Option<SummaryInfo>)
      requires Valid()
      ensures s == FindSummary(index, key)
    {
      if key in index.rows {
        return Some(index.rows[key]);
      }
      var i := 0;
      while i < |index.keys|
        invariant 0 <= i <= |index.keys|
        invariant forall j :: 0 <= j < i ==> !NameEquals(key)(index.keys[j], index.rows[index.keys[j]])
      {
        var id := index.keys[i];
        if index.rows[id].name == key {
          FirstIndexIs(index.keys, index.rows, NameEquals(key), Some(i));
          return Some(index.rows[id]);
        }
        i := i + 1;
      }
      FirstIndexIs(index.keys, index.rows, NameEquals(key), None);
      return None;
    }

    /** `load_summary`: nothing for an unknown summary or a missing file;
        otherwise the entry with the text read back from its file. */
    method LoadSummary(key: string) returns (r: Option<LoadedSummary>)
      requires Valid()
      ensures FindSummary(index, key).None? ==> r.None?
      ensures FindSummary(index, key).Some? && FindSummary(index, key).value.filePath !in files ==> r.None?
      ensures FindSummary(index, key).Some? && FindSummary(index, key).value.filePath in files ==>
                var info := FindSummary(index, key).value;
                r == Some(LoadedSummary(info, ExtractContent(files[info.filePath])))
    {
      var found := GetSummary(key);
      if found.None? {
        return None;
      }
      var info := found.value;
      if info.filePath !in files {
        return None;
      }
      return Some(LoadedSummary(info, ExtractContent(files[info.filePath])));
    }

    /** The search loop of `delete_summary`. */
    method FindDeleteTarget(key: string) returns (target: Option<string>)
      requires Valid()
      ensures target == DeleteTarget(index, key)
    {
      target := None;
      var i := 0;
      while i < |index.keys|
        invariant 0 <= i <= |index.keys|
        invariant forall j :: 0 <= j < i ==> !IdOrName(key)(index.keys[j], index.rows[index.keys[j]])
      {
        var id := index.keys[i];
        if id == key || index.rows[id].name == key {
          FirstIndexIs(index.keys, index.rows, IdOrName(key), Some(i));
          return Some(id);
        }
        i := i + 1;
      }
      FirstIndexIs(index.keys, index.rows, IdOrName(key), None);
    }

    /** `delete_summary`: false when no entry matches or the match is stored
        under the empty id; otherwise its file and its entry go. */
    method DeleteSummary(key: string) returns (deleted: bool)
      requires Valid()
      modifies this
      ensures Valid()
      ensures var target := old(DeleteTarget(index, key));
              deleted <==> target.Some? && target.value != ""
      ensures deleted ==>
                var id := old(DeleteTarget(index, key)).value;
                && index == Remove(old(index), id)
                && files == old(files) - {old(index).rows[id].filePath}
      ensures !deleted ==> index == old(index) && files == old(files)
    {
      var target := FindDeleteTarget(key);
      if target.None? || target.value == "" {
        return false;
      }
      var id := target.value;
      files := files - {index.rows[id].filePath};
      index := Remove(index, id);
      return true;
    }
  }
}
