/** The hierarchy the `/list` and `/resume` commands show: projects grouped
    under their namespaces, chats and summaries under their projects, each
    group newest first, flattened into the one list the cursor walks. */
module Browser {
  import opened Wrappers
  import opened Text
  import opened Store
  import opened Sorting
  import opened Grouping
  import ChatStore
  import ProjectStore
  import NamespaceStore
  import SummaryStore

  type ChatInfo = ChatStore.ChatInfo
  type Project = ProjectStore.Project
  type Namespace = NamespaceStore.Namespace
  type SummaryInfo = SummaryStore.SummaryInfo

  function NamespaceId(ns: Namespace): string { ns.id }
  function ProjectId(p: Project): string { p.id }
  function SameChat(c: ChatInfo): ChatInfo { c }
  function SameSummary(s: SummaryInfo): SummaryInfo { s }
  function ChatUpdatedAt(c: ChatInfo): string { c.updatedAt }

  /** `ref and ref in lookup`: the group an optional reference names. */
  function InLookup<T>(ref: Option<string>, lookup: Table<T>): (r: Option<string>)
    ensures r.Some? ==> r == ref && r.value in lookup.rows
    ensures r.None? <==> !Truthy(ref) || ref.value !in lookup.rows
  {
    if Truthy(ref) && ref.value in lookup.rows then ref else None
  }

  function ProjectKey(namespaces: Table<Namespace>): Project -> Option<string> {
    (p: Project) => InLookup(p.namespace, namespaces)
  }

  function ChatKey(projects: Table<Project>): ChatInfo -> Option<string> {
    (c: ChatInfo) => InLookup(c.project, projects)
  }

  function SummaryKey(projects: Table<Project>): SummaryInfo -> Option<string> {
    (s: SummaryInfo) => InLookup(s.project, projects)
  }

  /** Everything the display is built from. */
  datatype Hierarchy = Hierarchy(
    namespaces: Table<Namespace>,
    projects: Table<Project>,
    /** Project ids by namespace, and the standalone project ids. */
    byNamespace: Groups<string>,
    /** Chats by project, each group newest first. */
    chats: map<string, seq<ChatInfo>>,
    standaloneChats: seq<ChatInfo>,
    /** Summaries by project, each group newest first. */
    summaries: map<string, seq<SummaryInfo>>,
    standaloneSummaries: seq<SummaryInfo>)

  /** The groups as the source builds them from the listed records. */
  function Build(namespaces: seq<Namespace>, projects: seq<Project>, chats: seq<ChatInfo>,
                 summaries: seq<SummaryInfo>): Hierarchy
  {
    var nsLookup := Lookup(namespaces, NamespaceId);
    var projectLookup := Lookup(projects, ProjectId);
    var chatGroups := GroupBy(chats, ChatKey(projectLookup), SameChat);
    var summaryGroups := GroupBy(summaries, SummaryKey(projectLookup), SameSummary);
    Hierarchy(nsLookup, projectLookup,
              GroupBy(projects, ProjectKey(nsLookup), ProjectId),
              SortedGroups(chatGroups.members, ChatUpdatedAt),
              SortDesc(chatGroups.rest, ChatUpdatedAt),
              SortedGroups(summaryGroups.members, SummaryStore.CreatedAt),
              SortDesc(summaryGroups.rest, SummaryStore.CreatedAt))
  }

  /** Every name the display looks up is there. */
  ghost predicate WellFormed(h: Hierarchy) {
    && (forall n :: n in h.byNamespace.members <==> n in h.byNamespace.order)
    && (forall n | n in h.byNamespace.order :: n in h.namespaces.rows)
    && (forall n, pid | n in h.byNamespace.members && pid in h.byNamespace.members[n] :: pid in h.projects.rows)
    && (forall pid | pid in h.byNamespace.rest :: pid in h.projects.rows)
    && h.namespaces.Valid()
  }

  /** The project grouping only names namespaces of the lookup and only
      records ids of listed projects. */
  lemma {:induction false} ProjectGroupsKnown(projects: seq<Project>, namespaces: Table<Namespace>,
                                              projectLookup: Table<Project>)
    requires forall k :: k in projectLookup.rows <==> exists p :: p in projects && ProjectId(p) == k
    ensures var g := GroupBy(projects, ProjectKey(namespaces), ProjectId);
            && (forall n :: n in g.members <==> n in g.order)
            && (forall n | n in g.order :: n in namespaces.rows)
            && (forall n, pid | n in g.members && pid in g.members[n] :: pid in projectLookup.rows)
            && (forall pid | pid in g.rest :: pid in projectLookup.rows)
  {
    var key := ProjectKey(namespaces);
    var g := GroupBy(projects, key, ProjectId);
    GroupByPicks(projects, key, ProjectId);
    GroupByPartition(projects, key, ProjectId);
    forall n | n in g.order ensures n in namespaces.rows {
      assert g.members[n] != [];
      var pid := g.members[n][0];
      assert pid in g.members[n];
      var p :| p in projects && key(p) == Some(n) && ProjectId(p) == pid;
    }
  }

  lemma BuildWellFormed(namespaces: seq<Namespace>, projects: seq<Project>, chats: seq<ChatInfo>,
                        summaries: seq<SummaryInfo>)
    ensures WellFormed(Build(namespaces, projects, chats, summaries))
  {
    var nsLookup, projectLookup := Lookup(namespaces, NamespaceId), Lookup(projects, ProjectId);
    ProjectGroupsKnown(projects, nsLookup, projectLookup);
    assert Build(namespaces, projects, chats, summaries).byNamespace == GroupBy(projects, ProjectKey(nsLookup), ProjectId);
  }

  // ---------------------------------------------------------------------------
  // The `/list` display

  datatype Item =
    | NamespaceItem(namespace: Namespace)
    | ProjectItem(project: Project)
    | ChatItem(chat: ChatInfo)
    | SummaryItem(summary: SummaryInfo)

  /** One display row per element, in order. */
  function Each<U, I>(us: seq<U>, row: U -> I): (r: seq<I>)
    ensures |r| == |us|
    decreases |us|
  {
    if us == [] then [] else Each(us[..|us| - 1], row) + [row(us[|us| - 1])]
  }

  lemma {:induction false} EachHas<U, I>(us: seq<U>, row: U -> I, u: U)
    requires u in us
    ensures row(u) in Each(us, row)
    decreases |us|
  {
    var init := us[..|us| - 1];
    if u != us[|us| - 1] {
      assert us == init + [us[|us| - 1]];
      EachHas(init, row, u);
    }
  }

  function ChatRow(c: ChatInfo): Item { ChatItem(c) }
  function SummaryRow(s: SummaryInfo): Item { SummaryItem(s) }

  /** A project row, then its chats, then its summaries. */
  function ProjectBlock(p: Project, h: Hierarchy): seq<Item> {
    [ProjectItem(p)] + Each(Get(h.chats, p.id), ChatRow) + Each(Get(h.summaries, p.id), SummaryRow)
  }

  function ProjectBlocks(pids: seq<string>, h: Hierarchy): seq<Item>
    requires forall pid | pid in pids :: pid in h.projects.rows
    decreases |pids|
  {
    if pids == [] then []
    else ProjectBlocks(pids[..|pids| - 1], h) + ProjectBlock(h.projects.rows[pids[|pids| - 1]], h)
  }

  /** Each namespace that has projects, followed by their blocks. */
  function NamespaceBlocks(order: seq<string>, h: Hierarchy): (r: seq<Item>)
    requires WellFormed(h)
    requires forall n | n in order :: n in h.byNamespace.members
    ensures |r| >= |order|
    decreases |order|
  {
    if order == [] then []
    else
      var n := order[|order| - 1];
      NamespaceBlocks(order[..|order| - 1], h) + [NamespaceItem(h.namespaces.rows[n])]
      + ProjectBlocks(h.byNamespace.members[n], h)
  }

  /** The namespaces without projects, in lookup order. */
  function EmptyNamespaces(keys: seq<string>, h: Hierarchy): (r: seq<Item>)
    requires forall n | n in keys :: n in h.namespaces.rows
    ensures h.byNamespace.members == map[] ==> |r| == |keys|
    decreases |keys|
  {
    if keys == [] then []
    else
      var n := keys[|keys| - 1];
      EmptyNamespaces(keys[..|keys| - 1], h)
      + (if n !in h.byNamespace.members then [NamespaceItem(h.namespaces.rows[n])] else [])
  }

  /** `display_items` of `/list`. */
  function ListDisplay(h: Hierarchy): seq<Item>
    requires WellFormed(h)
  {
    NamespaceBlocks(h.byNamespace.order, h)
    + EmptyNamespaces(h.namespaces.keys, h)
    + ProjectBlocks(h.byNamespace.rest, h)
    + Each(h.standaloneChats, ChatRow)
    + Each(h.standaloneSummaries, SummaryRow)
  }

  /** Appends one row per element, in order. */
  method AppendEach<U, I>(display: seq<I>, us: seq<U>, row: U -> I) returns (r: seq<I>)
    ensures r == display + Each(us, row)
  {
    r := display;
    var i := 0;
    while i < |us|
      invariant 0 <= i <= |us|
      invariant r == display + Each(us[..i], row)
    {
      assert us[..i + 1][..i] == us[..i];
      r := r + [row(us[i])];
      i := i + 1;
    }
    assert us[..i] == us;
  }

  /** Appends a project's block: the project, its chats, its summaries. */
  method AppendProjectBlock(display: seq<Item>, p: Project, h: Hierarchy) returns (r: seq<Item>)
    ensures r == display + ProjectBlock(p, h)
  {
    r := display + [ProjectItem(p)];
    r := AppendEach(r, Get(h.chats, p.id), ChatRow);
    r := AppendEach(r, Get(h.summaries, p.id), SummaryRow);
  }

  /** The blocks of the projects `pids`, in order. */
  method AppendProjectBlocks(display: seq<Item>, pids: seq<string>, h: Hierarchy) returns (r: seq<Item>)
    requires forall pid | pid in pids :: pid in h.projects.rows
    ensures r == display + ProjectBlocks(pids, h)
  {
    r := display;
    var i := 0;
    while i < |pids|
      invariant 0 <= i <= |pids|
      invariant r == display + ProjectBlocks(pids[..i], h)
    {
      ghost var before := ProjectBlocks(pids[..i], h);
      assert pids[..i + 1][..i] == pids[..i];
      r := AppendProjectBlock(r, h.projects.rows[pids[i]], h);
      Regroup(display, before, ProjectBlock(h.projects.rows[pids[i]], h), []);
      i := i + 1;
    }
    assert pids[..i] == pids;
  }

  /** Each namespace with projects, then the blocks of its projects. */
  method AppendNamespaceBlocks(display: seq<Item>, h: Hierarchy) returns (r: seq<Item>)
    requires WellFormed(h)
    ensures r == display + NamespaceBlocks(h.byNamespace.order, h)
  {
    var order := h.byNamespace.order;
    r := display;
    var i := 0;
    while i < |order|
      invariant 0 <= i <= |order|
      invariant r == display + NamespaceBlocks(order[..i], h)
    {
      var n := order[i];
      var item := [NamespaceItem(h.namespaces.rows[n])];
      ghost var before := NamespaceBlocks(order[..i], h);
      NamespaceBlocksStep(order, i, h);
      r := r + item;
      r := AppendProjectBlocks(r, h.byNamespace.members[n], h);
      Regroup(display, before, item, ProjectBlocks(h.byNamespace.members[n], h));
      i := i + 1;
    }
    assert order[..i] == order;
  }

  /** One more namespace extends the blocks by its row and its projects. */
  lemma NamespaceBlocksStep(order: seq<string>, i: nat, h: Hierarchy)
    requires WellFormed(h) && i < |order|
    requires forall n | n in order :: n in h.byNamespace.members
    ensures var n := order[i];
            NamespaceBlocks(order[..i + 1], h)
            == NamespaceBlocks(order[..i], h) + [NamespaceItem(h.namespaces.rows[n])]
               + ProjectBlocks(h.byNamespace.members[n], h)
  {
    assert order[..i + 1][..i] == order[..i];
  }

  /** Appending in steps is appending the parts at once. */
  lemma Regroup<T>(d: seq<T>, p: seq<T>, x: seq<T>, b: seq<T>)
    ensures d + p + x + b == d + (p + x + b)
  {
  }

  /** The namespaces that no project names. */
  method AppendEmptyNamespaces(display: seq<Item>, h: Hierarchy) returns (r: seq<Item>)
    requires WellFormed(h)
    ensures r == display + EmptyNamespaces(h.namespaces.keys, h)
  {
    var keys := h.namespaces.keys;
    r := display;
    var i := 0;
    while i < |keys|
      invariant 0 <= i <= |keys|
      invariant r == display + EmptyNamespaces(keys[..i], h)
    {
      var n := keys[i];
      ghost var before := EmptyNamespaces(keys[..i], h);
      EmptyNamespacesStep(keys, i, h);
      if n !in h.byNamespace.members {
        var item := [NamespaceItem(h.namespaces.rows[n])];
        r := r + item;
        Regroup(display, before, item, []);
      }
      i := i + 1;
    }
    assert keys[..i] == keys;
  }

  /** One more namespace extends the list by its row when it is empty. */
  lemma EmptyNamespacesStep(keys: seq<string>, i: nat, h: Hierarchy)
    requires i < |keys| && forall n | n in keys :: n in h.namespaces.rows
    ensures var n := keys[i];
            EmptyNamespaces(keys[..i + 1], h)
            == EmptyNamespaces(keys[..i], h)
               + (if n !in h.byNamespace.members then [NamespaceItem(h.namespaces.rows[n])] else [])
  {
    assert keys[..i + 1][..i] == keys[..i];
  }

  /** The grouping half of `/list` and `/resume`: the id lookups, the
      projects by namespace, and the chats and summaries by project with
      each group sorted newest first. */
  method GroupRecords(namespaces: seq<Namespace>, projects: seq<Project>, chats: seq<ChatInfo>,
                      summaries: seq<SummaryInfo>)
    returns (h: Hierarchy)
    ensures h == Build(namespaces, projects, chats, summaries)
  {
    var nsLookup := Lookup(namespaces, NamespaceId);
    var projectLookup := Lookup(projects, ProjectId);
    var byNamespace := GroupItems(projects, ProjectKey(nsLookup), ProjectId);
    var chatGroups := GroupItems(chats, ChatKey(projectLookup), SameChat);
    var summaryGroups := GroupItems(summaries, SummaryKey(projectLookup), SameSummary);
    GroupByPicks(chats, ChatKey(projectLookup), SameChat);
    GroupByPicks(summaries, SummaryKey(projectLookup), SameSummary);
    var chatsSorted := SortEachGroup(chatGroups.order, chatGroups.members, ChatUpdatedAt);
    var summariesSorted := SortEachGroup(summaryGroups.order, summaryGroups.members, SummaryStore.CreatedAt);
    h := Hierarchy(nsLookup, projectLookup, byNamespace,
                   chatsSorted, SortDesc(chatGroups.rest, ChatUpdatedAt),
                   summariesSorted, SortDesc(summaryGroups.rest, SummaryStore.CreatedAt));
  }

  /** The `/list` composer: groups the records, then flattens the
      hierarchy in display order. */
  method ComposeList(namespaces: seq<Namespace>, projects: seq<Project>, chats: seq<ChatInfo>,
                     summaries: seq<SummaryInfo>)
    returns (display: seq<Item>)
    ensures WellFormed(Build(namespaces, projects, chats, summaries))
    ensures display == ListDisplay(Build(namespaces, projects, chats, summaries))
  {
    var h := GroupRecords(namespaces, projects, chats, summaries);
    BuildWellFormed(namespaces, projects, chats, summaries);
    display := Flatten(h);
  }

  /** The hierarchy in display order: namespaces with their projects, the
      empty namespaces, the standalone projects, chats and summaries. */
  method Flatten(h: Hierarchy) returns (display: seq<Item>)
    requires WellFormed(h)
    ensures display == ListDisplay(h)
  {
    display := AppendNamespaceBlocks([], h);
    assert display == NamespaceBlocks(h.byNamespace.order, h);
    display := AppendEmptyNamespaces(display, h);
    display := AppendProjectBlocks(display, h.byNamespace.rest, h);
    display := AppendEach(display, h.standaloneChats, ChatRow);
    display := AppendEach(display, h.standaloneSummaries, SummaryRow);
  }

  // ---------------------------------------------------------------------------
  // Where each record lands in the `/list` display

  lemma {:induction false} ProjectBlocksHas(pids: seq<string>, h: Hierarchy, pid: string, x: Item)
    requires forall q | q in pids :: q in h.projects.rows
    requires pid in pids && x in ProjectBlock(h.projects.rows[pid], h)
    ensures x in ProjectBlocks(pids, h)
    decreases |pids|
  {
    var init := pids[..|pids| - 1];
    if pid != pids[|pids| - 1] {
      assert pids == init + [pids[|pids| - 1]];
      ProjectBlocksHas(init, h, pid, x);
    }
  }

  lemma {:induction false} NamespaceBlocksHas(order: seq<string>, h: Hierarchy, n: string, pid: string, x: Item)
    requires WellFormed(h)
    requires forall m | m in order :: m in h.byNamespace.members
    requires n in order && pid in h.byNamespace.members[n]
    requires x in ProjectBlock(h.projects.rows[pid], h)
    ensures x in NamespaceBlocks(order, h)
    decreases |order|
  {
    var init := order[..|order| - 1];
    if n != order[|order| - 1] {
      assert order == init + [order[|order| - 1]];
      NamespaceBlocksHas(init, h, n, pid, x);
    } else {
      ProjectBlocksHas(h.byNamespace.members[n], h, pid, x);
    }
  }

  /** Every listed project is either standalone or under a namespace that
      has projects. */
  lemma ProjectPlaced(namespaces: seq<Namespace>, projects: seq<Project>, chats: seq<ChatInfo>,
                      summaries: seq<SummaryInfo>, pid: string)
    requires pid in Lookup(projects, ProjectId).rows
    ensures var g := Build(namespaces, projects, chats, summaries).byNamespace;
            pid in g.rest || exists n :: n in g.members && pid in g.members[n]
  {
    var key := ProjectKey(Lookup(namespaces, NamespaceId));
    var p :| p in projects && ProjectId(p) == pid;
    GroupByPartition(projects, key, ProjectId);
    GroupByPicks(projects, key, ProjectId);
  }

  /** A listed project's whole block is in the `/list` display. */
  lemma ProjectBlockListed(namespaces: seq<Namespace>, projects: seq<Project>, chats: seq<ChatInfo>,
                           summaries: seq<SummaryInfo>, pid: string, x: Item)
    requires pid in Lookup(projects, ProjectId).rows
    requires x in ProjectBlock(Lookup(projects, ProjectId).rows[pid], Build(namespaces, projects, chats, summaries))
    ensures WellFormed(Build(namespaces, projects, chats, summaries))
    ensures x in ListDisplay(Build(namespaces, projects, chats, summaries))
  {
    var h := Build(namespaces, projects, chats, summaries);
    BuildWellFormed(namespaces, projects, chats, summaries);
    ProjectPlaced(namespaces, projects, chats, summaries, pid);
    if pid in h.byNamespace.rest {
      ProjectBlocksHas(h.byNamespace.rest, h, pid, x);
    } else {
      var n :| n in h.byNamespace.members && pid in h.byNamespace.members[n];
      NamespaceBlocksHas(h.byNamespace.order, h, n, pid, x);
    }
  }

  /** `/list` shows every chat: under its project when it names a listed
      project, on the standalone list otherwise. */
  lemma ListShowsChat(namespaces: seq<Namespace>, projects: seq<Project>, chats: seq<ChatInfo>,
                      summaries: seq<SummaryInfo>, c: ChatInfo)
    requires c in chats
    ensures WellFormed(Build(namespaces, projects, chats, summaries))
    ensures ChatItem(c) in ListDisplay(Build(namespaces, projects, chats, summaries))
  {
    var h := Build(namespaces, projects, chats, summaries);
    BuildWellFormed(namespaces, projects, chats, summaries);
    var key := ChatKey(h.projects);
    var g := GroupBy(chats, key, SameChat);
    GroupByPartition(chats, key, SameChat);
    match key(c) {
      case None =>
        assert c in multiset(h.standaloneChats);
        EachHas(h.standaloneChats, ChatRow, c);
      case Some(pid) =>
        assert c in multiset(g.members[pid]);
        assert c in Get(h.chats, pid);
        EachHas(Get(h.chats, pid), ChatRow, c);
        ProjectBlockListed(namespaces, projects, chats, summaries, pid, ChatItem(c));
    }
  }

  /** `/list` shows every summary, likewise. */
  lemma ListShowsSummary(namespaces: seq<Namespace>, projects: seq<Project>, chats: seq<ChatInfo>,
                         summaries: seq<SummaryInfo>, s: SummaryInfo)
    requires s in summaries
    ensures WellFormed(Build(namespaces, projects, chats, summaries))
    ensures SummaryItem(s) in ListDisplay(Build(namespaces, projects, chats, summaries))
  {
    var h := Build(namespaces, projects, chats, summaries);
    BuildWellFormed(namespaces, projects, chats, summaries);
    var key := SummaryKey(h.projects);
    var g := GroupBy(summaries, key, SameSummary);
    GroupByPartition(summaries, key, SameSummary);
    match key(s) {
      case None =>
        assert s in multiset(h.standaloneSummaries);
        EachHas(h.standaloneSummaries, SummaryRow, s);
      case Some(pid) =>
        assert s in multiset(g.members[pid]);
        assert s in Get(h.summaries, pid);
        EachHas(Get(h.summaries, pid), SummaryRow, s);
        ProjectBlockListed(namespaces, projects, chats, summaries, pid, SummaryItem(s));
    }
  }

  /** The display is empty exactly when there is nothing at all: no
      namespace, project, chat or summary. */
  lemma ListDisplayEmpty(namespaces: seq<Namespace>, projects: seq<Project>, chats: seq<ChatInfo>,
                         summaries: seq<SummaryInfo>)
    ensures WellFormed(Build(namespaces, projects, chats, summaries))
    ensures ListDisplay(Build(namespaces, projects, chats, summaries)) == [] <==>
              namespaces == [] && projects == [] && chats == [] && summaries == []
  {
    var h := Build(namespaces, projects, chats, summaries);
    BuildWellFormed(namespaces, projects, chats, summaries);
    if chats != [] {
      ListShowsChat(namespaces, projects, chats, summaries, chats[0]);
    } else if summaries != [] {
      ListShowsSummary(namespaces, projects, chats, summaries, summaries[0]);
    } else if projects != [] {
      var pid := ProjectId(projects[0]);
      assert pid in h.projects.rows;
      var x := ProjectItem(h.projects.rows[pid]);
      assert x in ProjectBlock(h.projects.rows[pid], h);
      ProjectBlockListed(namespaces, projects, chats, summaries, pid, x);
    } else if namespaces != [] {
      assert NamespaceId(namespaces[0]) in h.namespaces.rows;
      assert h.namespaces.keys != [];
      assert h.byNamespace == Groups([], map[], []);
    }
  }
}
