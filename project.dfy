/** The project store (`ProjectManager`): projects keyed by a slug of their
    name, each holding the ids of the chats filed under it. The index file
    is the field `index`, read once by the constructor; the clock is the
    parameter `now`. */
module ProjectStore {
  import opened Wrappers
  import opened Text
  import opened Store
  import opened Sorting

  // ---------------------------------------------------------------------------
  // Project ids

  /** The id of a project: `re.sub(r'[\s]+', '-', re.sub(r'[^\w\s-]', '',
      name.lower()))`. */
  function Slug(name: string): string {
    ReplaceSpaceRuns(CleanLower(name), '-')
  }

  /** A project id is made only of lower-case letters, digits, '_' and '-'. */
  lemma SlugChars(name: string)
    ensures forall i :: 0 <= i < |Slug(name)| ==> SlugChar(Slug(name)[i])
  {
    var text := CleanLower(name);
    CleanLowerChars(name);
    assert forall i :: 0 <= i < |text| ==> text[i] in text;
    ReplaceSpaceRunsChars(text, '-', SlugChar);
  }

  /** Making a slug of a slug changes nothing: a project id names itself. */
  lemma SlugIdempotent(name: string)
    ensures Slug(Slug(name)) == Slug(name)
  {
    var x := Slug(name);
    SlugChars(name);
    LowerNone(x);
    assert forall i :: 0 <= i < |x| ==> CleanChar(x[i]);
    FilterKeepsAll(x, CleanChar);
    assert NoSpace(x);
    ReplaceSpaceRunsNone(x, '-');
  }

  lemma ExampleLower()
    ensures Lower("My WebApp") == "my webapp"
  {
  }

  lemma ExampleClean()
    ensures CleanLower("My WebApp") == "my webapp"
  {
    ExampleLower();
    assert forall i :: 0 <= i < |"my webapp"| ==> CleanChar("my webapp"[i]);
    FilterKeepsAll("my webapp", CleanChar);
  }

  /** A single space between two words becomes one `sub`. */
  lemma {:induction false} ReplaceOneSpace(w: string, v: string, sub: char)
    requires NoSpace(w) && NoSpace(v) && (v == [] || !IsSpace(v[0]))
    ensures ReplaceSpaceRuns(w + ([' '] + v), sub) == w + ([sub] + v)
    decreases |w|
  {
    var t := [' '] + v;
    var s := w + t;
    if w == [] {
      assert s == t && t[1..] == v;
      assert LeadingSpaces(v) == 0;
      assert LeadingSpaces(t) == 1;
      ReplaceSpaceRunsNone(v, sub);
    } else {
      var u := [sub] + v;
      assert s[0] == w[0] && s[1..] == w[1..] + t;
      ReplaceOneSpace(w[1..], v, sub);
      assert w + u == [w[0]] + (w[1..] + u);
    }
  }

  lemma ExampleDash()
    ensures ReplaceSpaceRuns("my webapp", '-') == "my-webapp"
  {
    var w, v := "my", "webapp";
    assert NoSpace(w) && NoSpace(v) && !IsSpace(v[0]);
    ReplaceOneSpace(w, v, '-');
    assert w + ([' '] + v) == "my webapp";
    assert w + (['-'] + v) == "my-webapp";
  }

  /** The documented example: "My WebApp" gets the id "my-webapp". */
  lemma SlugExample()
    ensures Slug("My WebApp") == "my-webapp"
  {
    ExampleClean();
    ExampleDash();
  }

  // ---------------------------------------------------------------------------
  // Records

  /** A project record as `create_project` builds it. */
  datatype Project = Project(name: string, id: string, description: string, namespace: Option<string>,
                             createdAt: string, updatedAt: string, chatCount: int, chats: seq<string>)

  datatype ProjectError =
    | EmptyName
    | AlreadyExists(name: string)
    | ChatAlreadyInProject(chatId: string, projectName: string)

  function UpdatedAt(p: Project): string {
    p.updatedAt
  }

  /** A project's counter counts its chats, and no chat is listed twice. */
  ghost predicate CountsChats(p: Project) {
    p.chatCount == |p.chats| && Distinct(p.chats)
  }

  /** `project_info['name'].lower() == key.lower()`. */
  function NameIs(key: string): (string, Project) -> bool {
    (id: string, p: Project) => Lower(p.name) == Lower(key)
  }

  /** `get_project`: the project stored under `key`; otherwise the first
      project, in index order, whose name equals `key` ignoring case. */
  function FindProject(t: Table<Project>, key: string): (r: Option<Project>)
    requires t.Valid()
    ensures key in t.rows ==> r == Some(t.rows[key])
    ensures key !in t.rows && r.Some? ==>
              exists id :: id in t.rows && t.rows[id] == r.value && Lower(r.value.name) == Lower(key)
    ensures key !in t.rows && r.Some? ==>
              exists i :: 0 <= i < |t.keys| && t.rows[t.keys[i]] == r.value
                && forall j | 0 <= j < i :: Lower(t.rows[t.keys[j]].name) != Lower(key)
    ensures r.None? <==> key !in t.rows && forall id | id in t.rows :: Lower(t.rows[id].name) != Lower(key)
  {
    if key in t.rows then Some(t.rows[key])
    else match FirstIndex(t.keys, t.rows, NameIs(key))
      case Some(i) => Some(t.rows[t.keys[i]])
      case None => None
  }

  /** `chat_id in project_info['chats']`. */
  function HoldsChat(chatId: string): (string, Project) -> bool {
    (id: string, p: Project) => chatId in p.chats
  }

  // ---------------------------------------------------------------------------
  // The store

  class ProjectManager {
    const base: string
    var index: Table<Project>

    /** The index is a dictionary, and each record sits under its own id. */
    ghost predicate Valid()
      reads this
    {
      && index.Valid()
      && forall id | id in index.rows :: index.rows[id].id == id
    }

    /** Every project's counter counts its chats. */
    ghost predicate Counted()
      reads this
    {
      forall id | id in index.rows :: CountsChats(index.rows[id])
    }

    /** `stored` is the index file as read: `None` when it is missing or
        cannot be parsed, and the store then starts empty. */
    constructor (base: string, stored: Option<Table<Project>>)
      requires stored.Some? ==> stored.value.Valid()
      requires stored.Some? ==> forall id | id in stored.value.rows :: stored.value.rows[id].id == id
      ensures Valid()
      ensures this.base == base
      ensures index == if stored.Some? then stored.value else Empty()
    {
      this.base := base;
      index := if stored.Some? then stored.value else Empty();
    }

    /** `create_project`: an empty or all-whitespace name is refused; a name
        whose slug is taken is refused and nothing changes; otherwise a
        project with no chats is stored under the slug. */
    method CreateProject(name: string, description: Option<string>, namespace: Option<string>, now: string)
      returns (r: Result<Project, ProjectError>)
      requires Valid()
      modifies this
      ensures Valid()
      ensures Strip(name) == [] ==> r == Err(EmptyName) && index == old(index)
      ensures Strip(name) != [] && Slug(name) in old(index.rows) ==> r == Err(AlreadyExists(name)) && index == old(index)
      ensures Strip(name) != [] && Slug(name) !in old(index.rows) ==>
                && r == Ok(Project(name, Slug(name), description.GetOr(""), namespace, now, now, 0, []))
                && index == Put(old(index), Slug(name), r.value)
      ensures old(Counted()) ==> Counted()
    {
      if Strip(name) == [] {
        return Err(EmptyName);
      }
      var id := Slug(name);
      if id in index.rows {
        return Err(AlreadyExists(name));
      }
      var p := Project(name, id, description.GetOr(""), namespace, now, now, 0, []);
      index := Put(index, id, p);
      return Ok(p);
    }

    /** `list_projects`: every project, most recently updated first. */
    method ListProjects() returns (ps: seq<Project>)
      requires Valid()
      ensures multiset(ps) == multiset(Values(index))
      ensures SortedDesc(ps, UpdatedAt)
      ensures ps == SortDesc(Values(index), UpdatedAt)
    {
      var all: seq<Project> := [];
      var i := 0;
      while i < |index.keys|
        invariant 0 <= i <= |index.keys|
        invariant all == Values(index)[..i]
      {
        all := all + [index.rows[index.keys[i]]];
        i := i + 1;
      }
      assert all == Values(index);
      ps := SortDesc(all, UpdatedAt);
      SortDescSorted(all, UpdatedAt);
    }

    /** `get_project`: the exact id first, then the first name that matches
        ignoring case. */
    method GetProject(key: string) returns (p: Option<Project>)
      requires Valid()
      ensures p == FindProject(index, key)
    {
      if key in index.rows {
        return Some(index.rows[key]);
      }
      var i := 0;
      while i < |index.keys|
        invariant 0 <= i <= |index.keys|
        invariant forall j :: 0 <= j < i ==> !NameIs(key)(index.keys[j], index.rows[index.keys[j]])
      {
        var id := index.keys[i];
        if Lower(index.rows[id].name) == Lower(key) {
          FirstIndexIs(index.keys, index.rows, NameIs(key), Some(i));
          return Some(index.rows[id]);
        }
        i := i + 1;
      }
      FirstIndexIs(index.keys, index.rows, NameIs(key), None);
      return None;
    }

    /** `delete_project`: false for an unknown project; otherwise only that
        project's record goes. */
    method DeleteProject(key: string) returns (deleted: bool)
      requires Valid()
      modifies this
      ensures Valid()
      ensures deleted <==> old(FindProject(index, key)).Some?
      ensures deleted ==> index == Remove(old(index), old(FindProject(index, key)).value.id)
      ensures !deleted ==> index == old(index)
      ensures old(Counted()) ==> Counted()
    {
      var p := GetProject(key);
      if p.None? {
        return false;
      }
      index := Remove(index, p.value.id);
      return true;
    }

    /** `add_chat`: false for an unknown project; a chat already filed
        there is refused; otherwise the chat is appended and the counter
        goes up by one, so a counted project stays counted. */
    method AddChat(key: string, chatId: string, now: string) returns (r: Result<bool, ProjectError>)
      requires Valid()
      modifies this
      ensures Valid()
      ensures var found := old(FindProject(index, key));
              && (found.None? ==> r == Ok(false) && index == old(index))
              && (found.Some? && chatId in old(index.rows)[found.value.id].chats ==>
                    r == Err(ChatAlreadyInProject(chatId, found.value.name)) && index == old(index))
              && (found.Some? && chatId !in old(index.rows)[found.value.id].chats ==>
                    var p := old(index.rows)[found.value.id];
                    r == Ok(true)
                    && index == Put(old(index), p.id,
                                    p.(chats := p.chats + [chatId], chatCount := p.chatCount + 1, updatedAt := now)))
      ensures old(Counted()) ==> Counted()
    {
      var found := GetProject(key);
      if found.None? {
        return Ok(false);
      }
      var id := found.value.id;
      var p := index.rows[id];
      if chatId in p.chats {
        return Err(ChatAlreadyInProject(chatId, found.value.name));
      }
      index := Put(index, id, p.(chats := p.chats + [chatId], chatCount := p.chatCount + 1, updatedAt := now));
      if old(Counted()) {
        forall other | other in index.rows ensures CountsChats(index.rows[other]) {
          if other == id {
            var q := index.rows[id];
            forall i, j | 0 <= i < j < |q.chats| ensures q.chats[i] != q.chats[j] {
              if j == |q.chats| - 1 {
                assert q.chats[i] in p.chats;
              }
            }
          }
        }
      }
      return Ok(true);
    }

    /** `remove_chat`: false for an unknown project or a chat not filed
        there; otherwise the chat's first occurrence is removed and the
        counter goes down by one, so a counted project stays counted and
        no longer lists the chat. */
    method RemoveChat(key: string, chatId: string, now: string) returns (removed: bool)
      requires Valid()
      modifies this
      ensures Valid()
      ensures var found := old(FindProject(index, key));
              removed <==> found.Some? && chatId in old(index.rows)[found.value.id].chats
      ensures removed ==>
                var p := old(index.rows)[old(FindProject(index, key)).value.id];
                index == Put(old(index), p.id,
                             p.(chats := RemoveFirst(p.chats, chatId), chatCount := p.chatCount - 1, updatedAt := now))
      ensures !removed ==> index == old(index)
      ensures old(Counted()) ==> Counted()
      ensures old(Counted()) && removed ==> chatId !in index.rows[old(FindProject(index, key)).value.id].chats
    {
      var found := GetProject(key);
      if found.None? {
        return false;
      }
      var id := found.value.id;
      var p := index.rows[id];
      if chatId !in p.chats {
        return false;
      }
      index := Put(index, id, p.(chats := RemoveFirst(p.chats, chatId), chatCount := p.chatCount - 1, updatedAt := now));
      if old(Counted()) {
        RemoveFirstGone(p.chats, chatId);
      }
      return true;
    }

    /** `get_project_chats`: the project's chat ids, or nothing for an
        unknown project. */
    method GetProjectChats(key: string) returns (chats: Option<seq<string>>)
      requires Valid()
      ensures FindProject(index, key).None? ==> chats == None
      ensures FindProject(index, key).Some? ==> chats == Some(FindProject(index, key).value.chats)
    {
      var p := GetProject(key);
      if p.None? {
        return None;
      }
      return Some(p.value.chats);
    }

    /** `get_chat_project`: the first project, in index order, that lists
        the chat. */
    method GetChatProject(chatId: string) returns (p: Option<Project>)
      requires Valid()
      ensures p.Some? ==> p.value.id in index.rows && index.rows[p.value.id] == p.value && chatId in p.value.chats
      ensures p.None? ==> forall id | id in index.rows :: chatId !in index.rows[id].chats
      ensures p == match FirstIndex(index.keys, index.rows, HoldsChat(chatId))
                   case Some(i) => Some(index.rows[index.keys[i]])
                   case None => None
    {
      var i := 0;
      while i < |index.keys|
        invariant 0 <= i <= |index.keys|
        invariant forall j :: 0 <= j < i ==> chatId !in index.rows[index.keys[j]].chats
      {
        var id := index.keys[i];
        if chatId in index.rows[id].chats {
          FirstIndexIs(index.keys, index.rows, HoldsChat(chatId), Some(i));
          return Some(index.rows[id]);
        }
        i := i + 1;
      }
      FirstIndexIs(index.keys, index.rows, HoldsChat(chatId), None);
      return None;
    }

    /** `rename_project`: false for an unknown project; otherwise only the
        name and the update time change, and the id stays. */
    method RenameProject(key: string, newName: string, now: string) returns (renamed: bool)
      requires Valid()
      modifies this
      ensures Valid()
      ensures renamed <==> old(FindProject(index, key)).Some?
      ensures renamed ==>
                var p := old(index.rows)[old(FindProject(index, key)).value.id];
                index == Put(old(index), p.id, p.(name := newName, updatedAt := now))
      ensures !renamed ==> index == old(index)
      ensures old(Counted()) ==> Counted()
    {
      var found := GetProject(key);
      if found.None? {
        return false;
      }
      var p := index.rows[found.value.id];
      index := Put(index, p.id, p.(name := newName, updatedAt := now));
      return true;
    }
  }
}
