/** `order(column, { ascending: false })` as the store applies it: rows
    sorted by a timestamp column, newest first, and `limit(n)`. */
module Ordering {

  /** Every row is at least as recent as every row after it. */
  predicate NewestFirst<T>(xs: seq<T>, key: T -> int) {
    forall i, j :: 0 <= i < j < |xs| ==> key(xs[j]) <= key(xs[i])
  }

  /** Puts `x` in front of the first row that is not newer than it. */
  function Insert<T>(x: T, xs: seq<T>, key: T -> int): (r: seq<T>)
    ensures multiset(r) == multiset(xs) + multiset{x}
    ensures NewestFirst(xs, key) ==> NewestFirst(r, key)
  {
    if xs == [] then [x]
    else if key(xs[0]) <= key(x) then [x] + xs
    else
      var rest := Insert(x, xs[1..], key);
      assert xs == [xs[0]] + xs[1..];
      assert NewestFirst(xs, key) ==> forall k :: 0 <= k < |rest| ==> key(rest[k]) <= key(xs[0]) by {
        if NewestFirst(xs, key) {
          forall k | 0 <= k < |rest| ensures key(rest[k]) <= key(xs[0]) {
            assert rest[k] in multiset(rest);
            if rest[k] != x {
              assert rest[k] in multiset(xs[1..]);
              var j :| 0 <= j < |xs[1..]| && xs[1..][j] == rest[k];
              assert xs[j + 1] == rest[k];
            }
          }
        }
      }
      [xs[0]] + rest
  }

  /** The rows ordered newest first (insertion sort). */
  function SortNewestFirst<T>(xs: seq<T>, key: T -> int): (r: seq<T>)
    ensures multiset(r) == multiset(xs)
    ensures NewestFirst(r, key)
  {
    if xs == [] then []
    else
      assert xs == [xs[0]] + xs[1..];
      Insert(xs[0], SortNewestFirst(xs[1..], key), key)
  }

  /** `limit(n)`: the first `n` rows, or all of them when there are fewer. */
  function Limit<T>(xs: seq<T>, n: nat): (r: seq<T>)
    ensures |r| == if |xs| <= n then |xs| else n
    ensures |xs| <= n ==> r == xs
    ensures r == xs[..|r|]
  {
    if |xs| <= n then xs else xs[..n]
  }

  /** Limiting a newest-first list keeps the newest rows: no row cut off is
      more recent than a row kept, and the kept rows stay in order. */
  lemma {:induction false} LimitKeepsNewest<T>(xs: seq<T>, key: T -> int, n: nat)
    requires NewestFirst(xs, key)
    ensures NewestFirst(Limit(xs, n), key)
    ensures forall x, y :: x in Limit(xs, n) && y in multiset(xs) - multiset(Limit(xs, n)) ==> key(y) <= key(x)
  {
    var r := Limit(xs, n);
    var k := |r|;
    assert xs == r + xs[k..];
    assert multiset(xs) - multiset(r) == multiset(xs[k..]);
    forall x, y | x in r && y in multiset(xs) - multiset(r) ensures key(y) <= key(x) {
      var i :| 0 <= i < k && r[i] == x;
      assert y in xs[k..];
      var j :| 0 <= j < |xs| - k && xs[k..][j] == y;
      assert xs[i] == x && xs[k + j] == y;
    }
  }
}
