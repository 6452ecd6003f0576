/** The two keyboard pickers: the `/list` browser, whose cursor moves one
    row at a time over every row, and the `/resume` picker, whose cursor
    skips headers and only ever rests on a chat. */
module Menus {
  import opened Wrappers
  import opened Store
  import opened Browser
  import opened ResumeBrowser
  import ProjectStore
  import NamespaceStore

  // ---------------------------------------------------------------------------
  // `/list`

  /** What a key press in the `/list` browser asks for. */
  datatype Action =
    | Resume(chat: ChatInfo)
    | ViewSummary(summary: SummaryInfo)
    | Delete(item: Item)
    | Rename(item: Item)
    | Cancel

  /** The `/list` browser over a non-empty display (an empty one is
      reported and never shown). */
  class ListMenu {
    const items: seq<Item>
    var selected: nat
    var action: Option<Action>
    var done: bool

    ghost predicate Valid()
      reads this
    {
      selected < |items|
    }

    constructor (items: seq<Item>)
      requires items != []
      ensures Valid()
      ensures this.items == items && selected == 0 && action == None && !done
    {
      this.items := items;
      selected := 0;
      action := None;
      done := false;
    }

    /** Up: one row back, staying on the first row. */
    method Up()
      requires Valid()
      modifies this
      ensures Valid()
      ensures selected == if old(selected) > 0 then old(selected) - 1 else old(selected)
      ensures action == old(action) && done == old(done)
    {
      if selected > 0 {
        selected := selected - 1;
      }
    }

    /** Down: one row on, staying on the last row. */
    method Down()
      requires Valid()
      modifies this
      ensures Valid()
      ensures selected == if old(selected) < |items| - 1 then old(selected) + 1 else old(selected)
      ensures action == old(action) && done == old(done)
    {
      if selected < |items| - 1 {
        selected := selected + 1;
      }
    }

    /** Enter: a chat is resumed and a summary opened, each closing the
        browser; on a namespace or project row nothing happens. */
    method Enter()
      requires Valid()
      modifies this
      ensures Valid() && selected == old(selected)
      ensures items[selected].ChatItem? ==> action == Some(Resume(items[selected].chat)) && done
      ensures items[selected].SummaryItem? ==> action == Some(ViewSummary(items[selected].summary)) && done
      ensures items[selected].NamespaceItem? || items[selected].ProjectItem? ==>
                action == old(action) && done == old(done)
    {
      match items[selected] {
        case ChatItem(c) =>
          action := Some(Resume(c));
          done := true;
        case SummaryItem(s) =>
          action := Some(ViewSummary(s));
          done := true;
        case _ =>
      }
    }

    /** `d`: asks to delete the row under the cursor, whatever it is. */
    method PressDelete()
      requires Valid()
      modifies this
      ensures Valid() && selected == old(selected)
      ensures action == Some(Delete(items[selected])) && done
    {
      action := Some(Delete(items[selected]));
      done := true;
    }

    /** `r`: asks to rename the row under the cursor. */
    method PressRename()
      requires Valid()
      modifies this
      ensures Valid() && selected == old(selected)
      ensures action == Some(Rename(items[selected])) && done
    {
      action := Some(Rename(items[selected]));
      done := true;
    }

    /** Escape or Ctrl-C. */
    method PressCancel()
      requires Valid()
      modifies this
      ensures Valid() && selected == old(selected)
      ensures action == Some(Cancel) && done
    {
      action := Some(Cancel);
      done := true;
    }
  }

  /** After the browser closes, cancelling and resuming leave the listing
      loop; viewing, deleting and renaming show the list again, and so
      does a close with no action recorded. */
  function KeepListing(action: Option<Action>): (keep: bool)
    ensures keep <==> action.None? || action.value.ViewSummary? || action.value.Delete? || action.value.Rename?
  {
    match action
    case None => true
    case Some(Cancel) => false
    case Some(Resume(_)) => false
    case Some(_) => true
  }

  // ---------------------------------------------------------------------------
  // What a confirmed delete removes

  /** The manager call a confirmed delete makes, and the key it passes. */
  datatype Removal =
    | RemoveNamespace(key: string)
    | RemoveProject(key: string)
    | RemoveChat(chatId: Option<string>)
    | RemoveSummary(summaryId: Option<string>)

  /** As written: namespaces and projects are deleted by their name, which
      the managers look up as an id first. */
  function DeleteRequestAsWritten(item: Item): (r: Removal)
    ensures item.NamespaceItem? ==> r == RemoveNamespace(item.namespace.name)
    ensures item.ProjectItem? ==> r == RemoveProject(item.project.name)
  {
    match item
    case NamespaceItem(ns) => RemoveNamespace(ns.name)
    case ProjectItem(p) => RemoveProject(p.name)
    case ChatItem(c) => RemoveChat(c.id)
    case SummaryItem(s) => RemoveSummary(s.summaryId)
  }

  /** Deleting by id, as renaming from the same browser does. */
  function DeleteRequest(item: Item): (r: Removal)
    ensures item.NamespaceItem? ==> r == RemoveNamespace(item.namespace.id)
    ensures item.ProjectItem? ==> r == RemoveProject(item.project.id)
    ensures !item.NamespaceItem? && !item.ProjectItem? ==> r == DeleteRequestAsWritten(item)
  {
    match item
    case NamespaceItem(ns) => RemoveNamespace(ns.id)
    case ProjectItem(p) => RemoveProject(p.id)
    case _ => DeleteRequestAsWritten(item)
  }

  const Alpha: Project := ProjectStore.Project("beta", "alpha", "", None, "", "", 0, [])
  const Beta: Project := ProjectStore.Project("Beta", "beta", "", None, "", "", 0, [])

  /** Projects `Alpha` and `Beta`, after `Alpha` was renamed to `beta`. */
  function RenamedProjects(): Table<Project> {
    Table(["alpha", "beta"], map["alpha" := Alpha, "beta" := Beta])
  }

  /** The name-keyed delete of the row showing `Alpha` finds `Beta`. */
  lemma DeleteByNameHitsAnother()
    ensures RenamedProjects().Valid()
    ensures DeleteRequestAsWritten(ProjectItem(Alpha)) == RemoveProject("beta")
    ensures ProjectStore.FindProject(RenamedProjects(), "beta") == Some(Beta)
    ensures Beta != Alpha
  {
    var t := RenamedProjects();
    assert Distinct(t.keys) by {
      assert t.keys[0] != t.keys[1];
    }
  }

  const Team: Namespace := NamespaceStore.Namespace("5f3c2a1b", "0d9e8f7a", "", "", "", [])
  const Other: Namespace := NamespaceStore.Namespace("0d9e8f7a", "other", "", "", "", [])

  /** A namespace named like another namespace's id. */
  function ClashingNamespaces(): Table<Namespace> {
    Table(["5f3c2a1b", "0d9e8f7a"], map["5f3c2a1b" := Team, "0d9e8f7a" := Other])
  }

  /** The name-keyed delete of the row showing `Team` finds `Other`. */
  lemma DeleteNamespaceByNameHitsAnother()
    ensures ClashingNamespaces().Valid()
    ensures DeleteRequestAsWritten(NamespaceItem(Team)) == RemoveNamespace("0d9e8f7a")
    ensures NamespaceStore.FindNamespace(ClashingNamespaces(), "0d9e8f7a") == Some(Other)
    ensures Other != Team
  {
    var t := ClashingNamespaces();
    assert Distinct(t.keys) by {
      assert t.keys[0] != t.keys[1];
    }
  }

  /** Deleting by id finds exactly the project on the selected row, in any
      store whose records sit under their own ids. */
  lemma {:induction false} DeleteRequestFindsProject(t: Table<Project>, p: Project)
    requires t.Valid()
    requires forall id | id in t.rows :: t.rows[id].id == id
    requires p.id in t.rows && t.rows[p.id] == p
    ensures DeleteRequest(ProjectItem(p)) == RemoveProject(p.id)
    ensures ProjectStore.FindProject(t, DeleteRequest(ProjectItem(p)).key) == Some(p)
  {
  }

  /** Likewise for the namespace on the selected row. */
  lemma {:induction false} DeleteRequestFindsNamespace(t: Table<Namespace>, ns: Namespace)
    requires t.Valid()
    requires forall id | id in t.rows :: t.rows[id].id == id
    requires ns.id in t.rows && t.rows[ns.id] == ns
    ensures DeleteRequest(NamespaceItem(ns)) == RemoveNamespace(ns.id)
    ensures NamespaceStore.FindNamespace(t, DeleteRequest(NamespaceItem(ns)).key) == Some(ns)
  {
  }

  // ---------------------------------------------------------------------------
  // `/resume`

  /** The first chat at or after `from`. */
  function NextChat(entries: seq<Entry>, from: nat): (r: Option<nat>)
    ensures r.Some? ==> from <= r.value < |entries| && entries[r.value].ChatEntry?
    ensures r.Some? ==> forall k | from <= k < r.value :: !entries[k].ChatEntry?
    ensures r.None? ==> forall k | from <= k < |entries| :: !entries[k].ChatEntry?
    decreases |entries| - from
  {
    if from >= |entries| then None
    else if entries[from].ChatEntry? then Some(from)
    else NextChat(entries, from + 1)
  }

  /** The last chat at or before `upto`. */
  function PrevChat(entries: seq<Entry>, upto: int): (r: Option<nat>)
    requires upto < |entries|
    ensures r.Some? ==> r.value <= upto && entries[r.value].ChatEntry?
    ensures r.Some? ==> forall k | r.value < k <= upto :: !entries[k].ChatEntry?
    ensures r.None? ==> forall k | 0 <= k <= upto :: !entries[k].ChatEntry?
    decreases upto + 1
  {
    if upto < 0 then None
    else if entries[upto].ChatEntry? then Some(upto)
    else PrevChat(entries, upto - 1)
  }

  /** The `/resume` picker over a non-empty display. */
  class ResumeMenu {
    const entries: seq<Entry>
    var selected: nat
    var result: Option<ChatInfo>
    var done: bool

    /** The cursor is on the display, and on a chat whenever there is one. */
    ghost predicate Valid()
      reads this
    {
      && selected < |entries|
      && (NextChat(entries, 0).Some? ==> entries[selected].ChatEntry?)
    }

    /** The cursor starts on the first chat, or on the first row when there
        is none. */
    constructor (entries: seq<Entry>)
      requires entries != []
      ensures Valid()
      ensures this.entries == entries && result == None && !done
      ensures selected == NextChat(entries, 0).GetOr(0)
    {
      this.entries := entries;
      result := None;
      done := false;
      var first := 0;
      var i := 0;
      while i < |entries|
        invariant 0 <= i <= |entries|
        invariant NextChat(entries, 0) == NextChat(entries, i)
      {
        if entries[i].ChatEntry? {
          first := i;
          break;
        }
        i := i + 1;
      }
      selected := first;
    }

    /** Up: to the nearest chat above; stays put when there is none. */
    method Up()
      requires Valid()
      modifies this
      ensures Valid()
      ensures selected == PrevChat(entries, old(selected) - 1).GetOr(old(selected))
      ensures result == old(result) && done == old(done)
    {
      var i := selected - 1;
      while i >= 0
        invariant -1 <= i < selected
        invariant PrevChat(entries, old(selected) - 1) == PrevChat(entries, i)
        invariant selected == old(selected) && result == old(result) && done == old(done)
      {
        if entries[i].ChatEntry? {
          selected := i;
          break;
        }
        i := i - 1;
      }
    }

    /** Down: to the nearest chat below; stays put when there is none. */
    method Down()
      requires Valid()
      modifies this
      ensures Valid()
      ensures selected == NextChat(entries, old(selected) + 1).GetOr(old(selected))
      ensures result == old(result) && done == old(done)
    {
      var i := selected + 1;
      while i < |entries|
        invariant selected < i <= |entries|
        invariant NextChat(entries, old(selected) + 1) == NextChat(entries, i)
        invariant selected == old(selected) && result == old(result) && done == old(done)
      {
        if entries[i].ChatEntry? {
          selected := i;
          break;
        }
        i := i + 1;
      }
    }

    /** Enter: on a chat, that chat is the one to resume and the picker
        closes; otherwise nothing happens. */
    method Enter()
      requires Valid()
      modifies this
      ensures Valid() && selected == old(selected)
      ensures entries[selected].ChatEntry? ==> result == Some(entries[selected].chat) && done
      ensures !entries[selected].ChatEntry? ==> result == old(result) && done == old(done)
    {
      if entries[selected].ChatEntry? {
        result := Some(entries[selected].chat);
        done := true;
      }
    }

    /** Escape or Ctrl-C: closes the picker with no chat chosen. */
    method PressCancel()
      requires Valid()
      modifies this
      ensures Valid() && selected == old(selected)
      ensures result == old(result) && done
    {
      done := true;
    }
  }

  /** Whenever the display holds a chat, Enter resumes one: the cursor is
      always on a chat. */
  lemma EnterPicksChat(entries: seq<Entry>, selected: nat, c: ChatInfo)
    requires selected < |entries|
    requires NextChat(entries, 0).Some? ==> entries[selected].ChatEntry?
    requires ChatEntry(c) in entries
    ensures entries[selected].ChatEntry?
  {
    var k :| 0 <= k < |entries| && entries[k] == ChatEntry(c);
  }
}
