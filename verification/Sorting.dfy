/** sort.Slice, of which nothing more is used than that the result is a sorted permutation. */
module Sorting {

  ghost predicate SortedBy<T>(rows: seq<T>, key: T -> int) {
    forall i, j :: 0 <= i < j < |rows| ==> key(rows[i]) <= key(rows[j])
  }

  ghost predicate IsSorting<T>(out: seq<T>, rows: seq<T>, key: T -> int) {
    multiset(out) == multiset(rows) && SortedBy(out, key)
  }

  function Insert<T>(s: seq<T>, k: nat, x: T): seq<T>
    requires k <= |s|
  {
    s[..k] + [x] + s[k..]
  }

  lemma InsertKeepsOrder<T>(s: seq<T>, k: nat, x: T, key: T -> int)
    requires k <= |s| && SortedBy(s, key)
    requires forall i :: 0 <= i < k ==> key(s[i]) <= key(x)
    requires forall i :: k <= i < |s| ==> key(x) <= key(s[i])
    ensures SortedBy(Insert(s, k, x), key)
  {
  }

  lemma InsertAdds<T>(s: seq<T>, k: nat, x: T)
    requires k <= |s|
    ensures multiset(Insert(s, k, x)) == multiset(s) + multiset{x}
  {
    assert s == s[..k] + s[k..];
  }

  /** Stands for sort.Slice: all that is used of it is that the result is a sorted permutation. */
  method SortSlice<T>(rows: seq<T>, key: T -> int) returns (out: seq<T>)
    ensures IsSorting(out, rows, key)
  {
    out := [];
    for n := 0 to |rows|
      invariant IsSorting(out, rows[..n], key)
    {
      var x := rows[n];
      var k := |out|;
      while k > 0 && key(out[k - 1]) > key(x)
        invariant 0 <= k <= |out|
        invariant forall i :: k <= i < |out| ==> key(out[i]) > key(x)
      {
        k := k - 1;
      }
      assert rows[..n + 1] == rows[..n] + [x];
      InsertKeepsOrder(out, k, x, key);
      InsertAdds(out, k, x);
      out := Insert(out, k, x);
    }
    assert rows[..|rows|] == rows;
  }
}
