/**
 * The order in which `Object.keys` lists the season keys of the grouped table.
 * The script engine follows OrdinaryOwnPropertyKeys (section 10.1.11.1 of
 * ECMA-262, 2023 edition): keys that are array indices come first, in ascending
 * numeric order, then every other string key in the order it was created.
 * A season key is the decimal text of an integer, so it is an array index
 * exactly when the integer lies in 0 .. 2^32 - 2.
 */
module KeyOrder {
  import opened Episodes

  /** The largest array index, 2^32 - 2 (section 6.1.7 of ECMA-262). */
  const MaxArrayIndex: int := 0xFFFF_FFFE

  /** The decimal text of `k` is an array index. */
  predicate IsArrayIndex(k: int)
  {
    0 <= k <= MaxArrayIndex
  }

  /** Strictly ascending. */
  predicate Ascending(s: seq<int>)
  {
    forall i, j :: 0 <= i < j < |s| ==> s[i] < s[j]
  }

  /** The keys of `keys` that are (or, for `arrayIndex == false`, are not) array indices, in their original order. */
  function KeysWhere(keys: seq<int>, arrayIndex: bool): (r: seq<int>)
    ensures |r| <= |keys|
    ensures forall k :: k in r <==> k in keys && IsArrayIndex(k) == arrayIndex
    ensures Distinct(keys) ==> Distinct(r)
  {
    if keys == [] then []
    else
      var rest := KeysWhere(keys[1..], arrayIndex);
      assert Distinct(keys) ==> keys[0] !in keys[1..];
      if IsArrayIndex(keys[0]) == arrayIndex then [keys[0]] + rest else rest
  }

  /** Every key is either an array index or not, so the two selections together are as long as the input. */
  lemma {:induction false} KeysWhereSplit(keys: seq<int>)
    ensures |KeysWhere(keys, true)| + |KeysWhere(keys, false)| == |keys|
  {
    if keys != [] { KeysWhereSplit(keys[1..]); }
  }

  /** Puts `x` into its place in the ascending sequence `s`. */
  function Insert(x: int, s: seq<int>): (r: seq<int>)
    requires Ascending(s) && x !in s
    ensures Ascending(r) && |r| == |s| + 1
    ensures forall k :: k in r <==> k == x || k in s
  {
    if s == [] || x < s[0] then [x] + s
    else
      var rest := Insert(x, s[1..]);
      var r := [s[0]] + rest;
      forall j | 0 < j < |r| ensures r[0] < r[j] {
        assert r[j] in rest;
        if r[j] != x {
          var m :| 0 <= m < |s[1..]| && s[1..][m] == r[j];
          assert s[m + 1] == r[j];
        }
      }
      r
  }

  /** Sorts a duplicate-free key list into ascending order. */
  function SortAscending(s: seq<int>): (r: seq<int>)
    requires Distinct(s)
    ensures Ascending(r) && |r| == |s|
    ensures forall k :: k in r <==> k in s
  {
    if s == [] then []
    else
      assert Distinct(s[1..]) && s[0] !in s[1..];
      Insert(s[0], SortAscending(s[1..]))
  }

  /** Joining two duplicate-free lists with no common element gives a duplicate-free list. */
  lemma DisjointConcatDistinct(a: seq<int>, b: seq<int>)
    requires Distinct(a) && Distinct(b)
    requires forall k :: k in a ==> k !in b
    ensures Distinct(a + b)
  {
    var r := a + b;
    forall i, j | 0 <= i < j < |r| ensures r[i] != r[j] {
      if j < |a| {
        assert r[i] == a[i] && r[j] == a[j];
      } else if |a| <= i {
        assert r[i] == b[i - |a|] && r[j] == b[j - |a|];
      } else {
        assert r[i] in a && r[j] in b;
      }
    }
  }

  /**
   * The key order of an object whose own keys were created in the order
   * `created`: the array-index keys ascending, then the others in creation
   * order.
   */
  function OwnKeys(created: seq<int>): (r: seq<int>)
    requires Distinct(created)
    ensures |r| == |created| && Distinct(r)
    ensures forall k :: k in r <==> k in created
    ensures var n := |KeysWhere(created, true)|;
            && n <= |r|
            && Ascending(r[..n])
            && (forall i :: 0 <= i < n ==> IsArrayIndex(r[i]))
            && r[n..] == KeysWhere(created, false)
  {
    var front, back := SortAscending(KeysWhere(created, true)), KeysWhere(created, false);
    KeysWhereSplit(created);
    DisjointConcatDistinct(front, back);
    assert (front + back)[..|front|] == front && (front + back)[|front|..] == back;
    front + back
  }

  lemma HeadIsMember(s: seq<int>)
    ensures s == [] || s[0] in s
  {
  }

  lemma AscendingMin(a: seq<int>, k: int)
    requires Ascending(a) && k in a
    ensures a[0] <= k
  {
    var j :| 0 <= j < |a| && a[j] == k;
  }

  /** Two ascending sequences with the same elements are equal. */
  lemma {:induction false} AscendingUnique(a: seq<int>, b: seq<int>)
    requires Ascending(a) && Ascending(b)
    requires forall k :: k in a <==> k in b
    ensures a == b
    decreases |a|
  {
    if a == [] {
      HeadIsMember(b);
    } else {
      assert a[0] in a && a[0] in b;
      assert b[0] in b && b[0] in a;
      AscendingMin(a, b[0]);
      AscendingMin(b, a[0]);
      forall k ensures k in a[1..] <==> k in b[1..] {
        assert k in a[1..] <==> k in a && k != a[0];
        assert k in b[1..] <==> k in b && k != b[0];
      }
      AscendingUnique(a[1..], b[1..]);
    }
  }

  /**
   * When every key is an array index (every season is a non-negative integer
   * below 2^32 - 1), the listed order is the ascending order of the key set,
   * whatever order the keys were created in.
   */
  lemma AllIndexKeysAscending(created: seq<int>, sorted: seq<int>)
    requires Distinct(created)
    requires forall k :: k in created ==> IsArrayIndex(k)
    requires Ascending(sorted) && forall k :: k in sorted <==> k in created
    ensures OwnKeys(created) == sorted
  {
    var r := OwnKeys(created);
    KeysWhereSplit(created);
    var back := KeysWhere(created, false);
    HeadIsMember(back);
    assert r == r[..|KeysWhere(created, true)|];
    AscendingUnique(r, sorted);
  }
}
