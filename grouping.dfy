/** The grouping loops of the browser: walk a list, put each element under
    the group its key names (a group is created the first time its key is
    seen, so groups come in order of first appearance) or, when it has no
    key, on the standalone list; and the id lookups built from a list. */
module Grouping {
  import opened Wrappers
  import opened Store
  import opened Sorting

  /** `{x['id']: x for x in xs}`: a later element with the same id replaces
      the value but the key keeps its first place. */
  function Lookup<T>(xs: seq<T>, id: T -> string): (t: Table<T>)
    ensures t.Valid()
    ensures forall k :: k in t.rows <==> exists x :: x in xs && id(x) == k
    ensures forall k | k in t.rows :: id(t.rows[k]) == k && t.rows[k] in xs
    decreases |xs|
  {
    if xs == [] then Empty()
    else
      var init, x := xs[..|xs| - 1], xs[|xs| - 1];
      assert xs == init + [x];
      var t := Put(Lookup(init, id), id(x), x);
      assert forall y | y in init :: y in xs;
      t
  }

  /** The grouped lists: group keys in order of first appearance, the
      members of each group, and the elements with no group. */
  datatype Groups<U> = Groups(order: seq<string>, members: map<string, seq<U>>, rest: seq<U>)

  /** The grouping loop over `xs`: `key` names the group of an element, or
      none; `val` is what is recorded for it. */
  function GroupBy<T, U>(xs: seq<T>, key: T -> Option<string>, val: T -> U): Groups<U>
    decreases |xs|
  {
    if xs == [] then Groups([], map[], [])
    else
      var g := GroupBy(xs[..|xs| - 1], key, val);
      var x := xs[|xs| - 1];
      match key(x)
      case None => g.(rest := g.rest + [val(x)])
      case Some(k) =>
        if k in g.members then g.(members := g.members[k := g.members[k] + [val(x)]])
        else g.(order := g.order + [k], members := g.members[k := [val(x)]])
  }

  /** Reference definition: the recorded values of the elements whose key
      is `k`, in list order. */
  function Pick<T, U>(xs: seq<T>, key: T -> Option<string>, val: T -> U, k: Option<string>): (r: seq<U>)
    ensures |r| <= |xs|
    decreases |xs|
  {
    if xs == [] then []
    else
      var x := xs[|xs| - 1];
      Pick(xs[..|xs| - 1], key, val, k) + (if key(x) == k then [val(x)] else [])
  }

  /** What lands in a group is what the reference definition picks. */
  lemma {:induction false} PickMembers<T, U>(xs: seq<T>, key: T -> Option<string>, val: T -> U, k: Option<string>)
    ensures forall u :: u in Pick(xs, key, val, k) <==> exists x :: x in xs && key(x) == k && val(x) == u
    decreases |xs|
  {
    if xs != [] {
      var init, x := xs[..|xs| - 1], xs[|xs| - 1];
      assert xs == init + [x];
      PickMembers(init, key, val, k);
      assert forall y :: y in xs <==> y in init || y == x;
    }
  }

  /** The grouping loop puts every element in the group its key names and
      the keyless ones on the standalone list, each group keeping list
      order; a group exists exactly when some element names it, and no
      group appears twice in the order. */
  lemma {:induction false} GroupByPicks<T, U>(xs: seq<T>, key: T -> Option<string>, val: T -> U)
    ensures var g := GroupBy(xs, key, val);
            && g.rest == Pick(xs, key, val, None)
            && (forall k :: k in g.members <==> k in g.order)
            && (forall k | k in g.members :: g.members[k] == Pick(xs, key, val, Some(k)))
            && (forall k :: k in g.members <==> Pick(xs, key, val, Some(k)) != [])
            && Distinct(g.order)
  {
    GroupByRest(xs, key, val);
    GroupByMembers(xs, key, val);
    GroupByDistinct(xs, key, val);
  }

  lemma {:induction false} GroupByRest<T, U>(xs: seq<T>, key: T -> Option<string>, val: T -> U)
    ensures GroupBy(xs, key, val).rest == Pick(xs, key, val, None)
    decreases |xs|
  {
    if xs != [] {
      GroupByRest(xs[..|xs| - 1], key, val);
    }
  }

  lemma {:induction false} GroupByMembers<T, U>(xs: seq<T>, key: T -> Option<string>, val: T -> U)
    ensures var g := GroupBy(xs, key, val);
            && (forall k :: k in g.members <==> k in g.order)
            && (forall k | k in g.members :: g.members[k] == Pick(xs, key, val, Some(k)))
            && (forall k :: k in g.members <==> Pick(xs, key, val, Some(k)) != [])
    decreases |xs|
  {
    if xs != [] {
      GroupByMembers(xs[..|xs| - 1], key, val);
    }
  }

  lemma {:induction false} GroupByDistinct<T, U>(xs: seq<T>, key: T -> Option<string>, val: T -> U)
    ensures Distinct(GroupBy(xs, key, val).order)
    decreases |xs|
  {
    if xs != [] {
      var init := xs[..|xs| - 1];
      GroupByDistinct(init, key, val);
      GroupByMembers(init, key, val);
    }
  }

  /** Each element lands in exactly one place: the group its key names, or
      the standalone list when it has none. */
  lemma GroupByPartition<T, U>(xs: seq<T>, key: T -> Option<string>, val: T -> U)
    ensures var g := GroupBy(xs, key, val);
            forall x | x in xs ::
              && (key(x).None? ==> val(x) in g.rest)
              && (key(x).Some? ==> key(x).value in g.members && val(x) in g.members[key(x).value])
    ensures var g := GroupBy(xs, key, val);
            forall u | u in g.rest :: exists x :: x in xs && key(x).None? && val(x) == u
    ensures var g := GroupBy(xs, key, val);
            forall k, u | k in g.members && u in g.members[k] :: exists x :: x in xs && key(x) == Some(k) && val(x) == u
  {
    var g := GroupBy(xs, key, val);
    GroupByPicks(xs, key, val);
    PickMembers(xs, key, val, None);
    forall k ensures forall u :: u in Pick(xs, key, val, Some(k)) <==> exists x :: x in xs && key(x) == Some(k) && val(x) == u {
      PickMembers(xs, key, val, Some(k));
    }
  }

  /** The grouping loop, written as the source writes it. */
  method GroupItems<T, U>(xs: seq<T>, key: T -> Option<string>, val: T -> U) returns (g: Groups<U>)
    ensures g == GroupBy(xs, key, val)
  {
    var order: seq<string> := [];
    var members: map<string, seq<U>> := map[];
    var rest: seq<U> := [];
    var i := 0;
    while i < |xs|
      invariant 0 <= i <= |xs|
      invariant Groups(order, members, rest) == GroupBy(xs[..i], key, val)
    {
      var x := xs[i];
      assert xs[..i + 1][..i] == xs[..i] && xs[..i + 1][i] == x;
      ghost var g := GroupBy(xs[..i], key, val);
      assert GroupBy(xs[..i + 1], key, val) == match key(x)
        case None => g.(rest := g.rest + [val(x)])
        case Some(k) =>
          if k in g.members then g.(members := g.members[k := g.members[k] + [val(x)]])
          else g.(order := g.order + [k], members := g.members[k := [val(x)]]);
      match key(x) {
        case None =>
          rest := rest + [val(x)];
        case Some(k) =>
          var isNew := k !in members;
          if isNew {
            order := order + [k];
            members := members[k := []];
          }
          ghost var before := members[k];
          members := members[k := members[k] + [val(x)]];
          assert isNew ==> before == [] && before + [val(x)] == [val(x)];
      }
      i := i + 1;
    }
    assert xs[..i] == xs;
    return Groups(order, members, rest);
  }

  /** Every group sorted newest first by `sortKey`. */
  function SortedGroups<U>(members: map<string, seq<U>>, sortKey: U -> string): (r: map<string, seq<U>>)
    ensures r.Keys == members.Keys
    ensures forall k | k in r :: multiset(r[k]) == multiset(members[k]) && SortedDesc(r[k], sortKey)
  {
    forall k | k in members ensures SortedDesc(SortDesc(members[k], sortKey), sortKey) {
      SortDescSorted(members[k], sortKey);
    }
    map k | k in members :: SortDesc(members[k], sortKey)
  }

  /** A map with the same groups, each sorted by `SortDesc`, is the one
      `SortedGroups` gives. */
  lemma SortedGroupsIs<U>(members: map<string, seq<U>>, sortKey: U -> string, m: map<string, seq<U>>)
    requires m.Keys == members.Keys
    requires forall k | k in m :: m[k] == SortDesc(members[k], sortKey)
    ensures m == SortedGroups(members, sortKey)
  {
  }

  /** The loop that sorts each group in place, in the order the groups were
      made. */
  method SortEachGroup<U>(order: seq<string>, members: map<string, seq<U>>, sortKey: U -> string)
    returns (sorted: map<string, seq<U>>)
    requires forall k :: k in members <==> k in order
    ensures sorted == SortedGroups(members, sortKey)
  {
    sorted := members;
    var i := 0;
    while i < |order|
      invariant 0 <= i <= |order|
      invariant sorted.Keys == members.Keys
      invariant forall k | k in sorted ::
                  sorted[k] == if k in order[..i] then SortDesc(members[k], sortKey) else members[k]
    {
      var k := order[i];
      var done, now := order[..i], order[..i + 1];
      assert now == done + [k];
      var prev := sorted;
      sorted := prev[k := SortDesc(members[k], sortKey)];
      forall q | q in sorted
        ensures sorted[q] == if q in now then SortDesc(members[q], sortKey) else members[q]
      {
        assert q in now <==> q in done || q == k;
      }
      i := i + 1;
    }
    assert order[..i] == order;
    SortedGroupsIs(members, sortKey, sorted);
  }

  /** `d.get(k, [])`. */
  function Get<U>(m: map<string, seq<U>>, k: string): seq<U> {
    if k in m then m[k] else []
  }
}
