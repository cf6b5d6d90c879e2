/**
 * `ORDER BY a DESC, b DESC` as the SQL engine applies it to a result set:
 * rows are arranged so that their (a, b) keys do not increase, compared
 * lexicographically. The engine leaves the order of rows with equal keys
 * unspecified; `SortDesc` picks one such order, and its contract states only
 * what every admissible order has in common: the keys do not increase and
 * the rows are a permutation of the input.
 */
module Ordering {

  /** The sort key of a row: the first and the second ORDER BY term. */
  datatype Key = Key(major: int, minor: int)

  /** `a` may come before `b` under `ORDER BY major DESC, minor DESC`. */
  predicate AtLeast(a: Key, b: Key) {
    a.major > b.major || (a.major == b.major && a.minor >= b.minor)
  }

  ghost predicate Descending<T>(s: seq<T>, key: T -> Key) {
    forall i, j :: 0 <= i < j < |s| ==> AtLeast(key(s[i]), key(s[j]))
  }

  /**
   * A head that is at least every row of a sorted tail, and strictly above
   * `x`, stays at the head once `x` is inserted into the tail.
   */
  lemma HeadStaysFirst<T>(h: T, x: T, t: seq<T>, rest: seq<T>, key: T -> Key)
    requires Descending([h] + t, key) && !AtLeast(key(x), key(h))
    requires Descending(rest, key) && multiset(rest) == multiset(t) + multiset{x}
    ensures Descending([h] + rest, key)
  {
    forall j | 0 <= j < |rest| ensures AtLeast(key(h), key(rest[j])) {
      var y := rest[j];
      assert y in multiset(rest);
      if y != x {
        assert y in multiset(t);
        var k :| 0 <= k < |t| && t[k] == y;
        assert ([h] + t)[0] == h && ([h] + t)[k + 1] == y;
        assert AtLeast(key(([h] + t)[0]), key(([h] + t)[k + 1]));
      }
    }
    var r := [h] + rest;
    forall i, j | 0 <= i < j < |r| ensures AtLeast(key(r[i]), key(r[j])) {
      assert r[j] == rest[j - 1];
      if i > 0 { assert r[i] == rest[i - 1]; }
    }
  }

  /** Places `x` before the first row whose key it is at least. */
  function InsertDesc<T>(x: T, s: seq<T>, key: T -> Key): (r: seq<T>)
    requires Descending(s, key)
    ensures Descending(r, key)
    ensures multiset(r) == multiset(s) + multiset{x}
  {
    if s == [] then [x]
    else if AtLeast(key(x), key(s[0])) then
      var r := [x] + s;
      assert forall i, j :: 0 < i < j < |r| ==> r[i] == s[i - 1] && r[j] == s[j - 1];
      r
    else
      assert s == [s[0]] + s[1..];
      var rest := InsertDesc(x, s[1..], key);
      HeadStaysFirst(s[0], x, s[1..], rest, key);
      [s[0]] + rest
  }

  /** `rows ORDER BY key DESC`. */
  function SortDesc<T>(s: seq<T>, key: T -> Key): (r: seq<T>)
    ensures Descending(r, key)
    ensures multiset(r) == multiset(s)
    ensures |r| == |s|
  {
    if s == [] then []
    else
      assert s == [s[0]] + s[1..];
      InsertDesc(s[0], SortDesc(s[1..], key), key)
  }
}
