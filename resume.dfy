/** The `/resume` picker: the keyword filter over the listed chats and the
    hierarchy of headers and chats the cursor walks. It is the `/list`
    grouping without summaries and with headers in place of rows. */
module ResumeBrowser {
  import opened Wrappers
  import opened Text
  import opened Store
  import opened Grouping
  import opened Browser

  /** A display entry: a header the cursor skips, or a chat it can stop on. */
  datatype Entry =
    | NamespaceHeader(namespace: Namespace)
    | ProjectHeader(project: Project, chatCount: nat)
    | StandaloneProjectsHeader
    | StandaloneChatsHeader
    | ChatEntry(chat: ChatInfo)

  function ChatEntryOf(c: ChatInfo): Entry { ChatEntry(c) }

  // ---------------------------------------------------------------------------
  // Keyword filter

  /** A chat matches when the keyword occurs in its lower-cased name or
      provider. */
  predicate Matches(c: ChatInfo, keyword: string) {
    Contains(Lower(c.name), keyword) || Contains(Lower(c.provider), keyword)
  }

  /** The matching chats, in list order. */
  function KeywordFilter(chats: seq<ChatInfo>, keyword: string): (r: seq<ChatInfo>)
    ensures |r| <= |chats|
    decreases |chats|
  {
    if chats == [] then []
    else
      var c := chats[|chats| - 1];
      KeywordFilter(chats[..|chats| - 1], keyword) + (if Matches(c, keyword) then [c] else [])
  }

  lemma {:induction false} KeywordFilterMembers(chats: seq<ChatInfo>, keyword: string)
    ensures forall c :: c in KeywordFilter(chats, keyword) <==> c in chats && Matches(c, keyword)
    decreases |chats|
  {
    if chats != [] {
      var init := chats[..|chats| - 1];
      assert chats == init + [chats[|chats| - 1]];
      KeywordFilterMembers(init, keyword);
    }
  }

  /** What `/resume` goes on with. */
  datatype Candidates =
    | NothingToResume
    | NoMatch(args: string)
    | Offer(chats: seq<ChatInfo>)

  /** No chats at all stops the command; with arguments, their lower-cased
      text filters the chats and an empty result stops it too. */
  function ResumeCandidates(chats: seq<ChatInfo>, args: string): (r: Candidates)
    ensures r.NothingToResume? <==> chats == []
    ensures r.NoMatch? <==> chats != [] && args != [] && forall c | c in chats :: !Matches(c, Lower(args))
    ensures r.NoMatch? ==> r.args == args
    ensures r.Offer? ==> r.chats != []
    ensures r.Offer? ==> forall c :: c in r.chats <==> c in chats && (args != [] ==> Matches(c, Lower(args)))
  {
    KeywordFilterMembers(chats, Lower(args));
    if chats == [] then NothingToResume
    else if args == [] then Offer(chats)
    else
      var filtered := KeywordFilter(chats, Lower(args));
      if filtered == [] then NoMatch(args)
      else assert filtered[0] in filtered; Offer(filtered)
  }

  // ---------------------------------------------------------------------------
  // The display

  /** A project header with its chat count, then its chats. */
  function ResumeBlock(p: Project, h: Hierarchy): seq<Entry> {
    var cs := Get(h.chats, p.id);
    [ProjectHeader(p, |cs|)] + Each(cs, ChatEntryOf)
  }

  function ResumeBlocks(pids: seq<string>, h: Hierarchy): seq<Entry>
    requires forall pid | pid in pids :: pid in h.projects.rows
    decreases |pids|
  {
    if pids == [] then []
    else ResumeBlocks(pids[..|pids| - 1], h) + ResumeBlock(h.projects.rows[pids[|pids| - 1]], h)
  }

  function ResumeNamespaceBlocks(order: seq<string>, h: Hierarchy): seq<Entry>
    requires WellFormed(h)
    requires forall n | n in order :: n in h.byNamespace.members
    decreases |order|
  {
    if order == [] then []
    else
      var n := order[|order| - 1];
      ResumeNamespaceBlocks(order[..|order| - 1], h) + [NamespaceHeader(h.namespaces.rows[n])]
      + ResumeBlocks(h.byNamespace.members[n], h)
  }

  /** The standalone projects, under a header only when namespaces came
      first. */
  function StandaloneProjects(h: Hierarchy): seq<Entry>
    requires WellFormed(h)
  {
    if h.byNamespace.rest == [] then []
    else (if h.byNamespace.order != [] then [StandaloneProjectsHeader] else []) + ResumeBlocks(h.byNamespace.rest, h)
  }

  /** The chats without a listed project, under their header. */
  function StandaloneChats(h: Hierarchy): seq<Entry> {
    if h.standaloneChats == [] then []
    else [StandaloneChatsHeader] + Each(h.standaloneChats, ChatEntryOf)
  }

  /** `display_items` of `/resume`: namespaces with projects, then the
      standalone projects, then the standalone chats. Empty namespaces are
      not shown. */
  function ResumeDisplay(h: Hierarchy): seq<Entry>
    requires WellFormed(h)
  {
    ResumeNamespaceBlocks(h.byNamespace.order, h) + StandaloneProjects(h) + StandaloneChats(h)
  }

  method AppendResumeBlock(display: seq<Entry>, p: Project, h: Hierarchy) returns (r: seq<Entry>)
    ensures r == display + ResumeBlock(p, h)
  {
    var cs := Get(h.chats, p.id);
    r := display + [ProjectHeader(p, |cs|)];
    r := AppendEach(r, cs, ChatEntryOf);
  }

  method AppendResumeBlocks(display: seq<Entry>, pids: seq<string>, h: Hierarchy) returns (r: seq<Entry>)
    requires forall pid | pid in pids :: pid in h.projects.rows
    ensures r == display + ResumeBlocks(pids, h)
  {
    r := display;
    var i := 0;
    while i < |pids|
      invariant 0 <= i <= |pids|
      invariant r == display + ResumeBlocks(pids[..i], h)
    {
      ghost var before := ResumeBlocks(pids[..i], h);
      assert pids[..i + 1][..i] == pids[..i];
      r := AppendResumeBlock(r, h.projects.rows[pids[i]], h);
      Regroup(display, before, ResumeBlock(h.projects.rows[pids[i]], h), []);
      i := i + 1;
    }
    assert pids[..i] == pids;
  }

  method AppendResumeNamespaces(display: seq<Entry>, h: Hierarchy) returns (r: seq<Entry>)
    requires WellFormed(h)
    ensures r == display + ResumeNamespaceBlocks(h.byNamespace.order, h)
  {
    var order := h.byNamespace.order;
    r := display;
    var i := 0;
    while i < |order|
      invariant 0 <= i <= |order|
      invariant r == display + ResumeNamespaceBlocks(order[..i], h)
    {
      var n := order[i];
      var header := [NamespaceHeader(h.namespaces.rows[n])];
      ghost var before := ResumeNamespaceBlocks(order[..i], h);
      ResumeNamespacesStep(order, i, h);
      r := r + header;
      r := AppendResumeBlocks(r, h.byNamespace.members[n], h);
      Regroup(display, before, header, ResumeBlocks(h.byNamespace.members[n], h));
      i := i + 1;
    }
    assert order[..i] == order;
  }

  /** One more namespace extends the display by its header and its
      projects. */
  lemma ResumeNamespacesStep(order: seq<string>, i: nat, h: Hierarchy)
    requires WellFormed(h) && i < |order|
    requires forall n | n in order :: n in h.byNamespace.members
    ensures var n := order[i];
            ResumeNamespaceBlocks(order[..i + 1], h)
            == ResumeNamespaceBlocks(order[..i], h) + [NamespaceHeader(h.namespaces.rows[n])]
               + ResumeBlocks(h.byNamespace.members[n], h)
  {
    assert order[..i + 1][..i] == order[..i];
  }

  method AppendStandaloneProjects(display: seq<Entry>, h: Hierarchy) returns (r: seq<Entry>)
    requires WellFormed(h)
    ensures r == display + StandaloneProjects(h)
  {
    r := display;
    if h.byNamespace.rest != [] {
      if h.byNamespace.order != [] {
        r := r + [StandaloneProjectsHeader];
      }
      r := AppendResumeBlocks(r, h.byNamespace.rest, h);
    }
  }

  method AppendStandaloneChats(display: seq<Entry>, h: Hierarchy) returns (r: seq<Entry>)
    ensures r == display + StandaloneChats(h)
  {
    r := display;
    if h.standaloneChats != [] {
      r := r + [StandaloneChatsHeader];
      r := AppendEach(r, h.standaloneChats, ChatEntryOf);
    }
  }

  method FlattenResume(h: Hierarchy) returns (display: seq<Entry>)
    requires WellFormed(h)
    ensures display == ResumeDisplay(h)
  {
    display := AppendResumeNamespaces([], h);
    assert display == ResumeNamespaceBlocks(h.byNamespace.order, h);
    display := AppendStandaloneProjects(display, h);
    display := AppendStandaloneChats(display, h);
  }

  /** The `/resume` composer over the chats on offer. */
  method ComposeResume(namespaces: seq<Namespace>, projects: seq<Project>, chats: seq<ChatInfo>)
    returns (display: seq<Entry>)
    ensures WellFormed(Build(namespaces, projects, chats, []))
    ensures display == ResumeDisplay(Build(namespaces, projects, chats, []))
  {
    var h := GroupRecords(namespaces, projects, chats, []);
    BuildWellFormed(namespaces, projects, chats, []);
    display := FlattenResume(h);
  }

  // ---------------------------------------------------------------------------
  // Every chat on offer is in the display

  lemma {:induction false} ResumeBlocksHas(pids: seq<string>, h: Hierarchy, pid: string, x: Entry)
    requires forall q | q in pids :: q in h.projects.rows
    requires pid in pids && x in ResumeBlock(h.projects.rows[pid], h)
    ensures x in ResumeBlocks(pids, h)
    decreases |pids|
  {
    var init := pids[..|pids| - 1];
    if pid != pids[|pids| - 1] {
      assert pids == init + [pids[|pids| - 1]];
      ResumeBlocksHas(init, h, pid, x);
    }
  }

  lemma {:induction false} ResumeNamespacesHas(order: seq<string>, h: Hierarchy, n: string, pid: string, x: Entry)
    requires WellFormed(h)
    requires forall m | m in order :: m in h.byNamespace.members
    requires n in order && pid in h.byNamespace.members[n]
    requires x in ResumeBlock(h.projects.rows[pid], h)
    ensures x in ResumeNamespaceBlocks(order, h)
    decreases |order|
  {
    var init := order[..|order| - 1];
    if n != order[|order| - 1] {
      assert order == init + [order[|order| - 1]];
      ResumeNamespacesHas(init, h, n, pid, x);
    } else {
      ResumeBlocksHas(h.byNamespace.members[n], h, pid, x);
    }
  }

  /** Every chat on offer can be picked: it is in the display, under its
      project or on the standalone list. So the display is never empty
      when there are chats. */
  lemma ResumeShowsChat(namespaces: seq<Namespace>, projects: seq<Project>, chats: seq<ChatInfo>, c: ChatInfo)
    requires c in chats
    ensures WellFormed(Build(namespaces, projects, chats, []))
    ensures ChatEntry(c) in ResumeDisplay(Build(namespaces, projects, chats, []))
  {
    var h := Build(namespaces, projects, chats, []);
    BuildWellFormed(namespaces, projects, chats, []);
    var key := ChatKey(h.projects);
    var g := GroupBy(chats, key, SameChat);
    GroupByPartition(chats, key, SameChat);
    match key(c) {
      case None =>
        assert c in multiset(h.standaloneChats);
        EachHas(h.standaloneChats, ChatEntryOf, c);
      case Some(pid) =>
        assert c in multiset(g.members[pid]);
        assert c in Get(h.chats, pid);
        EachHas(Get(h.chats, pid), ChatEntryOf, c);
        var x := ChatEntry(c);
        assert x in ResumeBlock(h.projects.rows[pid], h);
        ProjectPlaced(namespaces, projects, chats, [], pid);
        if pid in h.byNamespace.rest {
          ResumeBlocksHas(h.byNamespace.rest, h, pid, x);
        } else {
          var n :| n in h.byNamespace.members && pid in h.byNamespace.members[n];
          ResumeNamespacesHas(h.byNamespace.order, h, n, pid, x);
        }
    }
  }
}
