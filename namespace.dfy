/** Namespaces group projects. Each namespace has an eight-character id, a
    name that no other namespace carries, and the ids of its projects; its
    directory under `namespaces/` is named after it. */
module NamespaceStore {
  import opened Wrappers
  import opened Store

  datatype Namespace = Namespace(id: string, name: string, description: string,
                                 createdAt: string, updatedAt: string, projectIds: seq<string>)

  datatype NamespaceError =
    | AlreadyExists(name: string)
    | DirectoryRenameFailed(name: string)

  /** `ns['name'] == name`. */
  function NameEquals(name: string): (string, Namespace) -> bool {
    (id: string, ns: Namespace) => ns.name == name
  }

  /** Some namespace other than the one under `except` is called `name`. */
  ghost predicate NameTaken(t: Table<Namespace>, name: string, except: Option<string>) {
    exists id | id in t.rows :: t.rows[id].name == name && Some(id) != except
  }

  /** No two records of `t` share a name. */
  ghost predicate Unique(t: Table<Namespace>) {
    forall a, b | a in t.rows && b in t.rows && a != b :: t.rows[a].name != t.rows[b].name
  }

  /** Storing a record under an existing id keeps names unique when it keeps
      its old name or takes one no other record carries. */
  lemma PutKeepsUnique(t: Table<Namespace>, id: string, v: Namespace)
    requires t.Valid() && Unique(t) && id in t.rows
    requires v.name == t.rows[id].name || !NameTaken(t, v.name, Some(id))
    ensures Unique(Put(t, id, v))
  {
    var r := Put(t, id, v);
    forall a, b | a in r.rows && b in r.rows && a != b
      ensures r.rows[a].name != r.rows[b].name
    {
      if a == id {
        assert b in t.rows && r.rows[b] == t.rows[b];
      } else if b == id {
        assert a in t.rows && r.rows[a] == t.rows[a];
      }
    }
  }

  /** What `rename_namespace` returns and leaves behind. */
  datatype Renamed = Renamed(result: Result<bool, NamespaceError>, index: Table<Namespace>, dirs: set<string>)

  /** `rename_namespace`: `Ok(false)` for an unknown namespace; a name that
      another namespace carries is refused and nothing changes; otherwise
      the name and update time change, and the directory is moved when it
      exists. `moveOk` says whether the file system lets the move happen;
      when it does not, the old name is put back (the new update time
      stays) and the failure is reported. */
  ghost function RenameOutcome(t: Table<Namespace>, dirs: set<string>, key: string, newName: string,
                               now: string, moveOk: bool): Renamed
    requires t.Valid()
  {
    match FindNamespace(t, key)
    case None => Renamed(Ok(false), t, dirs)
    case Some(ns) =>
      if NameTaken(t, newName, Some(ns.id)) then Renamed(Err(AlreadyExists(newName)), t, dirs)
      else if ns.name in dirs && !moveOk then
        Renamed(Err(DirectoryRenameFailed(newName)), Put(t, ns.id, ns.(updatedAt := now)), dirs)
      else
        Renamed(Ok(true), Put(t, ns.id, ns.(name := newName, updatedAt := now)),
                if ns.name in dirs then dirs - {ns.name} + {newName} else dirs)
  }

  /** A rename changes only the renamed namespace: it keeps its id and its
      projects, takes the new name unless the move failed, and every other
      record is untouched; a refused or unknown rename changes nothing. */
  lemma RenameChangesOne(t: Table<Namespace>, dirs: set<string>, key: string, newName: string, now: string, moveOk: bool)
    requires t.Valid()
    requires forall id | id in t.rows :: t.rows[id].id == id
    ensures var o := RenameOutcome(t, dirs, key, newName, now, moveOk);
            && (o.result.Ok? ==> (o.result.value <==> FindNamespace(t, key).Some?))
            && (o.result == Ok(false) || (o.result.Err? && o.result.error.AlreadyExists?) ==> o.index == t && o.dirs == dirs)
            && o.index.keys == t.keys
            && (forall id | id in t.rows && (FindNamespace(t, key).None? || id != FindNamespace(t, key).value.id) ::
                  o.index.rows[id] == t.rows[id])
            && (o.result == Ok(true) ==> var ns := FindNamespace(t, key).value;
                  o.index.rows[ns.id] == ns.(name := newName, updatedAt := now))
  {
  }

  /** Storing a record under its own id keeps every record under its id. */
  lemma PutKeepsIds(t: Table<Namespace>, id: string, v: Namespace)
    requires t.Valid() && forall k | k in t.rows :: t.rows[k].id == k
    requires v.id == id
    ensures forall k | k in Put(t, id, v).rows :: Put(t, id, v).rows[k].id == k
  {
  }

  /** Renaming keeps the names unique. */
  lemma RenameKeepsUnique(t: Table<Namespace>, dirs: set<string>, key: string, newName: string, now: string, moveOk: bool)
    requires t.Valid() && Unique(t)
    requires forall id | id in t.rows :: t.rows[id].id == id
    ensures Unique(RenameOutcome(t, dirs, key, newName, now, moveOk).index)
  {
    match FindNamespace(t, key)
    case None =>
    case Some(ns) =>
      if !NameTaken(t, newName, Some(ns.id)) {
        PutKeepsUnique(t, ns.id, ns.(updatedAt := now));
        PutKeepsUnique(t, ns.id, ns.(name := newName, updatedAt := now));
      }
  }

  /** `get_namespace`: the namespace stored under `key`; otherwise the first
      one, in index order, whose name is exactly `key`. */
  function FindNamespace(t: Table<Namespace>, key: string): (r: Option<Namespace>)
    requires t.Valid()
    ensures key in t.rows ==> r == Some(t.rows[key])
    ensures key !in t.rows && r.Some? ==> r.value.name == key && exists id :: id in t.rows && t.rows[id] == r.value
    ensures key !in t.rows && r.Some? ==>
              exists i :: 0 <= i < |t.keys| && t.rows[t.keys[i]] == r.value
                && forall j | 0 <= j < i :: t.rows[t.keys[j]].name != key
    ensures r.None? <==> key !in t.rows && !NameTaken(t, key, None)
  {
    if key in t.rows then Some(t.rows[key])
    else match FirstIndex(t.keys, t.rows, NameEquals(key))
      case Some(i) => Some(t.rows[t.keys[i]])
      case None => None
  }

  /** The project list after `add_project`: appended when absent. */
  function WithProject(ids: seq<string>, projectId: string): (r: seq<string>)
    ensures projectId in r
    ensures forall x :: x in r <==> x in ids || x == projectId
    ensures |ids| <= |r| <= |ids| + 1 && r[..|ids|] == ids
    ensures |r| == |ids| <==> projectId in ids
    ensures Distinct(ids) ==> Distinct(r)
  {
    if projectId in ids then ids
    else
      assert (ids + [projectId])[..|ids|] == ids;
      DistinctSnoc(ids, projectId);
      ids + [projectId]
  }

  /** Every namespace lists each of its projects once. */
  ghost predicate ListsDistinct(t: Table<Namespace>) {
    forall id | id in t.rows :: Distinct(t.rows[id].projectIds)
  }

  /** `add_project` keeps every namespace's list free of duplicates. */
  lemma AddKeepsDistinct(t: Table<Namespace>, ns: Namespace, projectId: string, now: string)
    requires t.Valid() && ns.id in t.rows && t.rows[ns.id] == ns
    ensures ListsDistinct(t) ==> ListsDistinct(Put(t, ns.id, ns.(projectIds := WithProject(ns.projectIds, projectId), updatedAt := now)))
  {
    if ListsDistinct(t) {
      assert Distinct(ns.projectIds);
    }
  }

  /** `remove_project` keeps every namespace's list free of duplicates. */
  lemma RemoveKeepsDistinct(t: Table<Namespace>, ns: Namespace, projectId: string, now: string)
    requires t.Valid() && ns.id in t.rows && t.rows[ns.id] == ns
    ensures ListsDistinct(t) ==> ListsDistinct(Put(t, ns.id, ns.(projectIds := WithoutProject(ns.projectIds, projectId), updatedAt := now)))
  {
    if ListsDistinct(t) {
      WithoutProjectGone(ns.projectIds, projectId);
    }
  }

  /** The project list after `remove_project`: its first occurrence removed
      when present. */
  function WithoutProject(ids: seq<string>, projectId: string): (r: seq<string>)
    ensures multiset(r) == multiset(ids) - multiset{projectId}
    ensures projectId !in ids ==> r == ids
    ensures projectId in ids ==> exists i :: 0 <= i < |ids| && ids[i] == projectId && projectId !in ids[..i]
                                   && r == ids[..i] + ids[i + 1..]
  {
    if projectId in ids then
      RemoveFirstSplit(ids, projectId);
      RemoveFirst(ids, projectId)
    else ids
  }

  /** Adding a project twice is adding it once. */
  lemma WithProjectIdempotent(ids: seq<string>, projectId: string)
    ensures WithProject(WithProject(ids, projectId), projectId) == WithProject(ids, projectId)
  {
  }

  /** Removing a project that was just added to a list without it gives the
      list back. */
  lemma WithoutUndoesWith(ids: seq<string>, projectId: string)
    requires projectId !in ids
    ensures WithoutProject(WithProject(ids, projectId), projectId) == ids
  {
    RemoveFirstAppended(ids, projectId);
  }

  /** A list that holds each project once keeps doing so, and a removed
      project is gone from it. */
  lemma {:induction false} WithoutProjectGone(ids: seq<string>, projectId: string)
    requires Distinct(ids)
    ensures projectId !in WithoutProject(ids, projectId) && Distinct(WithoutProject(ids, projectId))
  {
    if projectId in ids {
      RemoveFirstGone(ids, projectId);
    }
  }

  class NamespaceManager {
    const base: string
    var index: Table<Namespace>
    /** Names of the directories under `namespaces/`. */
    var dirs: set<string>

    /** The index is a dictionary and each record sits under its own id. */
    ghost predicate Valid()
      reads this
    {
      && index.Valid()
      && forall id | id in index.rows :: index.rows[id].id == id
    }

    /** No two namespaces share a name. */
    ghost predicate UniqueNames()
      reads this
    {
      Unique(index)
    }

    /** `stored` is the index file as read: `None` when it is missing or
        cannot be parsed, and the store then starts empty; `dirs` is what
        the namespaces directory already holds. */
    constructor (base: string, stored: Option<Table<Namespace>>, dirs: set<string>)
      requires stored.Some? ==> stored.value.Valid()
      requires stored.Some? ==> forall id | id in stored.value.rows :: stored.value.rows[id].id == id
      ensures Valid()
      ensures this.base == base && this.dirs == dirs
      ensures index == if stored.Some? then stored.value else Empty()
    {
      this.base := base;
      index := if stored.Some? then stored.value else Empty();
      this.dirs := dirs;
    }

    /** `create_namespace`: a name already in use is refused and nothing
        changes; otherwise the namespace is stored under `id` (replacing a
        record that had the same id) and its directory is made. */
    method CreateNamespace(name: string, description: Option<string>, id: string, now: string)
      returns (r: Result<Namespace, NamespaceError>)
      requires Valid()
      modifies this
      ensures Valid()
      ensures NameTaken(old(index), name, None) ==> r == Err(AlreadyExists(name)) && index == old(index) && dirs == old(dirs)
      ensures !NameTaken(old(index), name, None) ==>
                && r == Ok(Namespace(id, name, description.GetOr(""), now, now, []))
                && index == Put(old(index), id, r.value)
                && dirs == old(dirs) + {name}
      ensures old(UniqueNames()) ==> UniqueNames()
    {
      var i := 0;
      while i < |index.keys|
        invariant 0 <= i <= |index.keys|
        invariant forall j :: 0 <= j < i ==> index.rows[index.keys[j]].name != name
      {
        if index.rows[index.keys[i]].name == name {
          return Err(AlreadyExists(name));
        }
        i := i + 1;
      }
      var ns := Namespace(id, name, description.GetOr(""), now, now, []);
      index := Put(index, id, ns);
      dirs := dirs + {name};
      return Ok(ns);
    }

    /** `list_namespaces`: every namespace, in index order. */
    method ListNamespaces() returns (ns: seq<Namespace>)
      requires Valid()
      ensures |ns| == |index.keys|
      ensures forall i :: 0 <= i < |ns| ==> ns[i] == index.rows[index.keys[i]]
      ensures forall n :: n in ns <==> exists id :: id in index.rows && index.rows[id] == n
    {
      ns := Values(index);
      forall n | n in ns ensures exists id :: id in index.rows && index.rows[id] == n {
        var i :| 0 <= i < |ns| && ns[i] == n;
        assert index.keys[i] in index.rows;
      }
      forall id | id in index.rows ensures index.rows[id] in ns {
        var i :| 0 <= i < |index.keys| && index.keys[i] == id;
        assert ns[i] == index.rows[id];
      }
    }

    /** `get_namespace`: the exact id first, then the first exact name. */
    method GetNamespace(key: string) returns (ns: Option<Namespace>)
      requires Valid()
      ensures ns == FindNamespace(index, key)
    {
      if key in index.rows {
        return Some(index.rows[key]);
      }
      var i := 0;
      while i < |index.keys|
        invariant 0 <= i <= |index.keys|
        invariant forall j :: 0 <= j < i ==> !NameEquals(key)(index.keys[j], index.rows[index.keys[j]])
      {
        var id := index.keys[i];
        if index.rows[id].name == key {
          FirstIndexIs(index.keys, index.rows, NameEquals(key), Some(i));
          return Some(index.rows[id]);
        }
        i := i + 1;
      }
      FirstIndexIs(index.keys, index.rows, NameEquals(key), None);
      return None;
    }

    /** `add_project`: false for an unknown namespace; a project already
        listed leaves everything as it was; otherwise it is appended and the
        namespace's update time is set. */
    method AddProject(key: string, projectId: string, now: string) returns (found: bool)
      requires Valid()
      modifies this
      ensures Valid() && dirs == old(dirs)
      ensures found <==> old(FindNamespace(index, key)).Some?
      ensures found && projectId !in old(FindNamespace(index, key)).value.projectIds ==>
                var ns := old(FindNamespace(index, key)).value;
                index == Put(old(index), ns.id, ns.(projectIds := WithProject(ns.projectIds, projectId), updatedAt := now))
      ensures !found || projectId in old(FindNamespace(index, key)).value.projectIds ==> index == old(index)
      ensures old(UniqueNames()) ==> UniqueNames()
      ensures old(ListsDistinct(index)) ==> ListsDistinct(index)
    {
      var ns := GetNamespace(key);
      if ns.None? {
        return false;
      }
      var n := ns.value;
      if projectId !in n.projectIds {
        AddKeepsDistinct(index, n, projectId, now);
        index := Put(index, n.id, n.(projectIds := WithProject(n.projectIds, projectId), updatedAt := now));
      }
      return true;
    }

    /** `remove_project`: false for an unknown namespace; a project not
        listed leaves everything as it was; otherwise its first occurrence is
        removed and the namespace's update time is set. */
    method RemoveProject(key: string, projectId: string, now: string) returns (found: bool)
      requires Valid()
      modifies this
      ensures Valid() && dirs == old(dirs)
      ensures found <==> old(FindNamespace(index, key)).Some?
      ensures found && projectId in old(FindNamespace(index, key)).value.projectIds ==>
                var ns := old(FindNamespace(index, key)).value;
                index == Put(old(index), ns.id, ns.(projectIds := WithoutProject(ns.projectIds, projectId), updatedAt := now))
      ensures !found || projectId !in old(FindNamespace(index, key)).value.projectIds ==> index == old(index)
      ensures old(UniqueNames()) ==> UniqueNames()
      ensures old(ListsDistinct(index)) ==> ListsDistinct(index)
    {
      var ns := GetNamespace(key);
      if ns.None? {
        return false;
      }
      var n := ns.value;
      if projectId in n.projectIds {
        RemoveKeepsDistinct(index, n, projectId, now);
        index := Put(index, n.id, n.(projectIds := WithoutProject(n.projectIds, projectId), updatedAt := now));
      }
      return true;
    }

    /** `get_namespace_projects`: the namespace's project ids, or nothing for
        an unknown namespace. */
    method GetNamespaceProjects(key: string) returns (ids: Option<seq<string>>)
      requires Valid()
      ensures FindNamespace(index, key).None? ==> ids == None
      ensures FindNamespace(index, key).Some? ==> ids == Some(FindNamespace(index, key).value.projectIds)
    {
      var ns := GetNamespace(key);
      if ns.None? {
        return None;
      }
      return Some(ns.value.projectIds);
    }

    /** `delete_namespace`: false for an unknown namespace; otherwise its
        record goes, the projects it listed are untouched, and its directory
        is removed only when `dirIsEmpty` says it holds nothing. */
    method DeleteNamespace(key: string, dirIsEmpty: bool) returns (deleted: bool)
      requires Valid()
      modifies this
      ensures Valid()
      ensures deleted <==> old(FindNamespace(index, key)).Some?
      ensures deleted ==> index == Remove(old(index), old(FindNamespace(index, key)).value.id)
      ensures deleted && dirIsEmpty ==> dirs == old(dirs) - {old(FindNamespace(index, key)).value.name}
      ensures !deleted || !dirIsEmpty ==> dirs == old(dirs)
      ensures !deleted ==> index == old(index)
      ensures old(UniqueNames()) ==> UniqueNames()
    {
      var ns := GetNamespace(key);
      if ns.None? {
        return false;
      }
      index := Remove(index, ns.value.id);
      if dirIsEmpty {
        dirs := dirs - {ns.value.name};
      }
      return true;
    }

    /** `rename_namespace`, proved against `RenameOutcome` (which
        `RenameKeepsUnique` shows keeps names unique). */
    method RenameNamespace(key: string, newName: string, now: string, moveOk: bool)
      returns (r: Result<bool, NamespaceError>)
      requires Valid()
      modifies this
      ensures Valid()
      ensures Renamed(r, index, dirs) == RenameOutcome(old(index), old(dirs), key, newName, now, moveOk)
    {
      var found := GetNamespace(key);
      if found.None? {
        return Ok(false);
      }
      var ns := found.value;
      var taken := OtherNamed(newName, ns.id);
      if taken {
        return Err(AlreadyExists(newName));
      }
      var renamed := Put(index, ns.id, ns.(name := newName, updatedAt := now));
      if ns.name in dirs && !moveOk {
        var restored := Put(renamed, ns.id, renamed.rows[ns.id].(name := ns.name));
        PutTwice(index, ns.id, ns.(name := newName, updatedAt := now), ns.(updatedAt := now));
        PutKeepsIds(index, ns.id, ns.(updatedAt := now));
        index := restored;
        return Err(DirectoryRenameFailed(newName));
      }
      PutKeepsIds(index, ns.id, ns.(name := newName, updatedAt := now));
      index := renamed;
      if ns.name in dirs {
        dirs := dirs - {ns.name} + {newName};
      }
      return Ok(true);
    }

    /** The duplicate-name check of `rename_namespace`: whether a namespace
        other than the one under `id` is called `name`. */
    method OtherNamed(name: string, id: string) returns (taken: bool)
      requires Valid()
      ensures taken <==> NameTaken(index, name, Some(id))
    {
      var i := 0;
      while i < |index.keys|
        invariant 0 <= i <= |index.keys|
        invariant forall j :: 0 <= j < i ==> index.rows[index.keys[j]].name != name || index.keys[j] == id
      {
        var other := index.keys[i];
        if index.rows[other].name == name && other != id {
          return true;
        }
        i := i + 1;
      }
      return false;
    }
  }
}
