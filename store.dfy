/** The index dictionaries of the record store. A Python dict remembers the
    order in which its keys were first inserted, and every "find the first
    entry that matches" loop of the managers walks it in that order, so an
    index is modelled as its keys in insertion order plus the map from key
    to record. */
module Store {
  import opened Wrappers

  ghost predicate Distinct<T>(s: seq<T>) {
    forall i, j :: 0 <= i < j < |s| ==> s[i] != s[j]
  }

  datatype Table<V> = Table(keys: seq<string>, rows: map<string, V>) {
    /** What every Python dict satisfies: each key once, keys and rows agree. */
    ghost predicate Valid() {
      && Distinct(keys)
      && (forall k :: k in rows <==> k in keys)
    }
  }

  function Empty<V>(): (t: Table<V>)
    ensures t.Valid() && t.keys == [] && t.rows == map[]
  {
    Table([], map[])
  }

  /** `d[k] = v`: an existing key keeps its place, a new key goes last. */
  function Put<V>(t: Table<V>, k: string, v: V): (r: Table<V>)
    requires t.Valid()
    ensures r.Valid()
    ensures r.rows == t.rows[k := v]
    ensures r.keys == if k in t.rows then t.keys else t.keys + [k]
  {
    Table(if k in t.rows then t.keys else t.keys + [k], t.rows[k := v])
  }

  /** The head and tail of a concatenation whose first part is not empty. */
  lemma SplitHead<T>(a: seq<T>, b: seq<T>)
    requires a != []
    ensures (a + b)[0] == a[0] && (a + b)[1..] == a[1..] + b
  {
  }

  /** A second `d[k] = w` overrides the first. */
  lemma PutTwice<V>(t: Table<V>, k: string, v: V, w: V)
    requires t.Valid()
    ensures Put(Put(t, k, v), k, w) == Put(t, k, w)
  {
    assert Put(t, k, v).keys == Put(t, k, w).keys;
  }

  /** The keys other than `k`, in their order. */
  function Without(keys: seq<string>, k: string): (r: seq<string>)
    ensures forall x :: x in r <==> x in keys && x != k
    ensures |r| <= |keys|
  {
    if keys == [] then []
    else (if keys[0] == k then [] else [keys[0]]) + Without(keys[1..], k)
  }

  lemma {:induction false} WithoutDistinct(keys: seq<string>, k: string)
    requires Distinct(keys)
    ensures Distinct(Without(keys, k))
  {
    if keys != [] {
      WithoutDistinct(keys[1..], k);
      var tail := Without(keys[1..], k);
      assert keys[0] !in keys[1..];
      assert keys[0] !in tail;
      var head := if keys[0] == k then [] else [keys[0]];
      var r := head + tail;
      assert Without(keys, k) == r;
      forall i, j | 0 <= i < j < |r| ensures r[i] != r[j] {
        if i < |head| {
          assert r[i] == keys[0];
          assert r[j] == tail[j - 1] && tail[j - 1] in tail;
        } else {
          assert r[i] == tail[i - |head|] && r[j] == tail[j - |head|];
        }
      }
    }
  }

  /** `del d[k]`: the entry goes, the other keys keep their order. */
  function Remove<V>(t: Table<V>, k: string): (r: Table<V>)
    requires t.Valid()
    ensures r.Valid()
    ensures r.rows == t.rows - {k}
    ensures r.keys == Without(t.keys, k)
  {
    WithoutDistinct(t.keys, k);
    Table(Without(t.keys, k), t.rows - {k})
  }

  /** `list(d.values())`: the records in key order. */
  function Values<V>(t: Table<V>): (vs: seq<V>)
    requires t.Valid()
    ensures |vs| == |t.keys|
    ensures forall i :: 0 <= i < |t.keys| ==> vs[i] == t.rows[t.keys[i]]
  {
    seq(|t.keys|, i requires 0 <= i < |t.keys| => t.rows[t.keys[i]])
  }

  /** Position of the first key, in insertion order, whose entry satisfies
      `hit`: what a `for k, v in d.items(): if ...: break` loop finds. */
  function FirstIndex<V>(keys: seq<string>, rows: map<string, V>, hit: (string, V) -> bool): (r: Option<nat>)
    requires forall k | k in keys :: k in rows
    ensures r.Some? ==> r.value < |keys| && hit(keys[r.value], rows[keys[r.value]])
    ensures r.Some? ==> forall j :: 0 <= j < r.value ==> !hit(keys[j], rows[keys[j]])
    ensures r.None? ==> forall j :: 0 <= j < |keys| ==> !hit(keys[j], rows[keys[j]])
  {
    if keys == [] then None
    else if hit(keys[0], rows[keys[0]]) then Some(0)
    else match FirstIndex(keys[1..], rows, hit)
      case None => None
      case Some(i) => Some(i + 1)
  }

  /** The loop's answer is the first hit: a hit at `i` with no hit before it
      is what `FirstIndex` returns, and no hit at all means `None`. */
  lemma FirstIndexIs<V>(keys: seq<string>, rows: map<string, V>, hit: (string, V) -> bool, r: Option<nat>)
    requires forall k | k in keys :: k in rows
    requires r.Some? ==> r.value < |keys| && hit(keys[r.value], rows[keys[r.value]])
    requires r.Some? ==> forall j :: 0 <= j < r.value ==> !hit(keys[j], rows[keys[j]])
    requires r.None? ==> forall j :: 0 <= j < |keys| ==> !hit(keys[j], rows[keys[j]])
    ensures FirstIndex(keys, rows, hit) == r
  {
  }

  /** `list.remove(x)`: the first occurrence of `x` removed. */
  function RemoveFirst(s: seq<string>, x: string): (r: seq<string>)
    requires x in s
    ensures |r| == |s| - 1
    ensures multiset(r) == multiset(s) - multiset{x}
  {
    assert s == [s[0]] + s[1..];
    if s[0] == x then s[1..]
    else [s[0]] + RemoveFirst(s[1..], x)
  }

  /** `list.remove` takes out the FIRST occurrence and keeps the rest in
      order: the result is `s` with position `i` cut out, where `i` is the
      first place `x` occurs. */
  lemma {:induction false} RemoveFirstSplit(s: seq<string>, x: string)
    requires x in s
    ensures exists i :: 0 <= i < |s| && s[i] == x && x !in s[..i] && RemoveFirst(s, x) == s[..i] + s[i + 1..]
  {
    if s[0] == x {
      assert s[..0] + s[1..] == RemoveFirst(s, x);
    } else {
      assert x in s[1..] by {
        var m :| 0 <= m < |s| && s[m] == x;
        assert s[1..][m - 1] == x;
      }
      RemoveFirstSplit(s[1..], x);
      var k :| 0 <= k < |s[1..]| && s[1..][k] == x && x !in s[1..][..k]
               && RemoveFirst(s[1..], x) == s[1..][..k] + s[1..][k + 1..];
      RemoveFirstAt(s, x, k);
    }
  }

  /** The sequence facts behind `RemoveFirstSplit`'s witness: a first occurrence
      at `k` in the tail is a first occurrence at `k + 1` in the whole. */
  lemma RemoveFirstAt(s: seq<string>, x: string, k: nat)
    requires 0 < |s| && s[0] != x && k < |s| - 1 && s[1..][k] == x && x !in s[1..][..k]
    ensures s[k + 1] == x && x !in s[..k + 1]
    ensures [s[0]] + (s[1..][..k] + s[1..][k + 1..]) == s[..k + 1] + s[k + 2..]
  {
    assert s[..k + 1] == [s[0]] + s[1..][..k];
    assert s[k + 2..] == s[1..][k + 1..];
  }

  /** Removing an element from a list that holds it once leaves it absent. */
  lemma {:induction false} RemoveFirstGone(s: seq<string>, x: string)
    requires x in s && Distinct(s)
    ensures x !in RemoveFirst(s, x) && Distinct(RemoveFirst(s, x))
  {
    assert s[0] !in s[1..];
    if s[0] != x {
      assert Distinct(s[1..]) by {
        forall i, j | 0 <= i < j < |s[1..]| ensures s[1..][i] != s[1..][j] {
          assert s[1..][i] == s[i + 1] && s[1..][j] == s[j + 1];
        }
      }
      RemoveFirstGone(s[1..], x);
      var tail := RemoveFirst(s[1..], x);
      assert multiset(s[1..])[s[0]] == 0;
      assert multiset(tail)[s[0]] == 0;
      DistinctCons(s[0], tail);
    }
  }

  /** A list without duplicates stays so with an element it lacks in front. */
  lemma DistinctCons(a: string, t: seq<string>)
    requires Distinct(t) && a !in t
    ensures Distinct([a] + t)
  {
    var r := [a] + t;
    forall i, j | 0 <= i < j < |r| ensures r[i] != r[j] {
      assert r[j] == t[j - 1];
      if i > 0 {
        assert r[i] == t[i - 1];
      }
    }
  }

  /** Appending an element the list lacks keeps it free of duplicates. */
  lemma DistinctSnoc<T>(t: seq<T>, a: T)
    ensures Distinct(t) && a !in t ==> Distinct(t + [a])
  {
    if Distinct(t) && a !in t {
      var r := t + [a];
      forall i, j | 0 <= i < j < |r| ensures r[i] != r[j] {
        assert r[i] == t[i];
        if j < |t| {
          assert r[j] == t[j];
        }
      }
    }
  }

  /** Appending an element the list lacks and then removing it gives the
      list back: `remove` undoes `append`. */
  lemma {:induction false} RemoveFirstAppended(s: seq<string>, x: string)
    requires x !in s
    ensures RemoveFirst(s + [x], x) == s
  {
    if s != [] {
      assert (s + [x])[1..] == s[1..] + [x];
      RemoveFirstAppended(s[1..], x);
      assert s == [s[0]] + s[1..];
    }
  }

  /** A table after a loop that rewrites, in place and in key order, each
      entry `v` stored under `k` as `stamp(k, v)`. */
  ghost function Stamped<V>(t: Table<V>, stamp: (string, V) -> V): (r: Table<V>)
    requires t.Valid()
    ensures r.keys == t.keys && r.rows.Keys == t.rows.Keys
  {
    Table(t.keys, map k | k in t.rows :: stamp(k, t.rows[k]))
  }

  /** The entries of the first `i` keys are rewritten in `rows`, the others
      are as they were. */
  ghost predicate StampedTo<V>(t: Table<V>, stamp: (string, V) -> V, rows: map<string, V>, i: nat)
    requires t.Valid()
  {
    && rows.Keys == t.rows.Keys
    && forall j | 0 <= j < |t.keys| ::
         rows[t.keys[j]] == if j < i then stamp(t.keys[j], t.rows[t.keys[j]]) else t.rows[t.keys[j]]
  }

  /** Rewriting the entry of the next key: it is still the original one
      before, and one more key is done after. */
  lemma StampStep<V>(t: Table<V>, stamp: (string, V) -> V, rows: map<string, V>, i: nat)
    requires t.Valid() && i < |t.keys| && StampedTo(t, stamp, rows, i)
    ensures rows[t.keys[i]] == t.rows[t.keys[i]]
    ensures StampedTo(t, stamp, rows[t.keys[i] := stamp(t.keys[i], rows[t.keys[i]])], i + 1)
  {
    var k := t.keys[i];
    var next := rows[k := stamp(k, rows[k])];
    forall j | 0 <= j < |t.keys| && j != i ensures next[t.keys[j]] == rows[t.keys[j]] {
      assert t.keys[j] != k;
    }
  }

  /** The entries of `Stamped` in key order, one key further. */
  lemma StampedPrefix<V>(t: Table<V>, stamp: (string, V) -> V, i: nat)
    requires t.Valid() && i < |t.keys|
    ensures Stamped(t, stamp).Valid()
    ensures Values(Stamped(t, stamp))[..i + 1]
            == Values(Stamped(t, stamp))[..i] + [stamp(t.keys[i], t.rows[t.keys[i]])]
  {
    var vs := Values(Stamped(t, stamp));
    assert vs[..i + 1] == vs[..i] + [vs[i]];
  }

  /** With every key done, the table is `Stamped`. */
  lemma StampDone<V>(t: Table<V>, stamp: (string, V) -> V, rows: map<string, V>)
    requires t.Valid() && StampedTo(t, stamp, rows, |t.keys|)
    ensures Table(t.keys, rows) == Stamped(t, stamp)
  {
    forall k | k in rows ensures rows[k] == stamp(k, t.rows[k]) {
      var j :| 0 <= j < |t.keys| && t.keys[j] == k;
    }
    assert rows == Stamped(t, stamp).rows;
  }
}
