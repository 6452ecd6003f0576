/** Python's `xs.sort(key=key, reverse=True)` on string keys: newest first
    when the keys are ISO timestamps. The sort is stable, so records with
    equal keys keep their original relative order. */
module Sorting {
  import opened Text

  ghost predicate SortedDesc<T>(s: seq<T>, key: T -> string) {
    forall i, j :: 0 <= i < j < |s| ==> LessEq(key(s[j]), key(s[i]))
  }

  /** Puts `x` before the first element whose key is not greater than its
      own, so that it precedes the equal-keyed elements that came after it. */
  function InsertDesc<T>(x: T, s: seq<T>, key: T -> string): (r: seq<T>)
    ensures multiset(r) == multiset(s) + multiset{x}
    ensures |r| == |s| + 1
  {
    if s == [] || LessEq(key(s[0]), key(x)) then [x] + s
    else
      assert s == [s[0]] + s[1..];
      [s[0]] + InsertDesc(x, s[1..], key)
  }

  /** Insertion sort by descending key. */
  function SortDesc<T>(xs: seq<T>, key: T -> string): (r: seq<T>)
    ensures multiset(r) == multiset(xs)
    ensures |r| == |xs|
  {
    if xs == [] then []
    else
      assert xs == [xs[0]] + xs[1..];
      InsertDesc(xs[0], SortDesc(xs[1..], key), key)
  }

  lemma {:induction false} InsertDescSorted<T>(x: T, s: seq<T>, key: T -> string)
    requires SortedDesc(s, key)
    ensures SortedDesc(InsertDesc(x, s, key), key)
  {
    var r := InsertDesc(x, s, key);
    if s == [] || LessEq(key(s[0]), key(x)) {
      forall i, j | 0 <= i < j < |r| ensures LessEq(key(r[j]), key(r[i])) {
        if i == 0 {
          if j > 1 { LessEqTrans(key(s[j - 1]), key(s[0]), key(x)); }
        }
      }
    } else {
      LessEqTotal(key(s[0]), key(x));
      InsertDescSorted(x, s[1..], key);
      var tail := InsertDesc(x, s[1..], key);
      assert r == [s[0]] + tail;
      forall i, j | 0 <= i < j < |r| ensures LessEq(key(r[j]), key(r[i])) {
        if i == 0 {
          var y := r[j];
          assert y in multiset(tail);
          assert y == x || y in multiset(s[1..]);
          if y != x {
            var k :| 0 <= k < |s[1..]| && s[1..][k] == y;
            assert s[k + 1] == y;
          }
        }
      }
    }
  }

  /** The result is ordered newest first. */
  lemma {:induction false} SortDescSorted<T>(xs: seq<T>, key: T -> string)
    ensures SortedDesc(SortDesc(xs, key), key)
  {
    if xs != [] {
      SortDescSorted(xs[1..], key);
      InsertDescSorted(xs[0], SortDesc(xs[1..], key), key);
    }
  }
}
