// `SELECT key, COUNT(*) ... GROUP BY key` over a table whose grouping key
// ranges over a finite enumeration: one row per key value that occurs.
module Grouping {
  import opened Common

  function WithKey<R, K(==)>(p: R -> bool, key: R -> K, k: K): R -> bool
  {
    (r: R) => p(r) && key(r) == k
  }

  /** The rows satisfying `p` whose key is one of `ks`. */
  function WithKeyIn<R, K(==)>(m: map<Id, R>, p: R -> bool, key: R -> K, ks: seq<K>): set<Id>
  {
    set i | i in m && p(m[i]) && key(m[i]) in ks
  }

  /** The grouped rows for the key values `ks`, in that order, leaving out empty groups. */
  function GroupRows<R, K(==)>(m: map<Id, R>, p: R -> bool, key: R -> K, ks: seq<K>): (rows: seq<(K, nat)>)
    ensures forall i :: 0 <= i < |rows| ==> rows[i].0 in ks && rows[i].1 > 0
    ensures forall i :: 0 <= i < |rows| ==> rows[i].1 == |Select(m, WithKey(p, key, rows[i].0))|
  {
    if ks == [] then []
    else
      var n := |Select(m, WithKey(p, key, ks[0]))|;
      (if n > 0 then [(ks[0], n)] else []) + GroupRows(m, p, key, ks[1..])
  }

  /** Every key value that occurs among the rows satisfying `p` has its group. */
  lemma {:induction false} GroupRowsComplete<R, K>(m: map<Id, R>, p: R -> bool, key: R -> K, ks: seq<K>, k: K)
    requires k in ks && |Select(m, WithKey(p, key, k))| > 0
    ensures exists i :: 0 <= i < |GroupRows(m, p, key, ks)| && GroupRows(m, p, key, ks)[i].0 == k
  {
    var n := |Select(m, WithKey(p, key, ks[0]))|;
    var head: seq<(K, nat)> := if n > 0 then [(ks[0], n)] else [];
    var rest := GroupRows(m, p, key, ks[1..]);
    assert GroupRows(m, p, key, ks) == head + rest;
    if ks[0] == k {
      assert (head + rest)[0] == (k, n);
    } else {
      assert k in ks[1..];
      GroupRowsComplete(m, p, key, ks[1..], k);
      var i :| 0 <= i < |rest| && rest[i].0 == k;
      assert (head + rest)[|head| + i] == rest[i];
    }
  }

  /** Over distinct key values, no key value has two rows. */
  lemma {:induction false} GroupRowsDistinct<R, K>(m: map<Id, R>, p: R -> bool, key: R -> K, ks: seq<K>)
    requires forall i, j :: 0 <= i < j < |ks| ==> ks[i] != ks[j]
    ensures forall i, j :: 0 <= i < j < |GroupRows(m, p, key, ks)| ==>
      GroupRows(m, p, key, ks)[i].0 != GroupRows(m, p, key, ks)[j].0
  {
    if ks != [] {
      var tail := ks[1..];
      assert forall i, j :: 0 <= i < j < |tail| ==> tail[i] != tail[j] by {
        forall i, j | 0 <= i < j < |tail| ensures tail[i] != tail[j] {
          assert tail[i] == ks[i + 1] && tail[j] == ks[j + 1];
        }
      }
      assert ks[0] !in tail by {
        forall i | 0 <= i < |tail| ensures tail[i] != ks[0] {
          assert tail[i] == ks[i + 1];
        }
      }
      GroupRowsDistinct(m, p, key, tail);
      var n := |Select(m, WithKey(p, key, ks[0]))|;
      var head: seq<(K, nat)> := if n > 0 then [(ks[0], n)] else [];
      var rest := GroupRows(m, p, key, tail);
      var all := head + rest;
      assert GroupRows(m, p, key, ks) == all;
      forall i, j | 0 <= i < j < |all| ensures all[i].0 != all[j].0 {
        if i < |head| {
          assert all[i].0 == ks[0];
          assert all[j] == rest[j - |head|];
        } else {
          assert all[i] == rest[i - |head|] && all[j] == rest[j - |head|];
        }
      }
    }
  }

  function RowSum<K>(rows: seq<(K, nat)>): nat
  {
    if rows == [] then 0 else rows[0].1 + RowSum(rows[1..])
  }

  /** Sum of the group sizes over `ks`, empty groups included. */
  function GroupSizeSum<R, K(==)>(m: map<Id, R>, p: R -> bool, key: R -> K, ks: seq<K>): nat
  {
    if ks == [] then 0 else |Select(m, WithKey(p, key, ks[0]))| + GroupSizeSum(m, p, key, ks[1..])
  }

  /** Leaving out the empty groups does not change the sum. */
  lemma {:induction false} GroupRowsSum<R, K>(m: map<Id, R>, p: R -> bool, key: R -> K, ks: seq<K>)
    ensures RowSum(GroupRows(m, p, key, ks)) == GroupSizeSum(m, p, key, ks)
  {
    if ks != [] {
      GroupRowsSum(m, p, key, ks[1..]);
      var n := |Select(m, WithKey(p, key, ks[0]))|;
      var rows := GroupRows(m, p, key, ks[1..]);
      if n > 0 {
        var all := [(ks[0], n)] + rows;
        assert all[0] == (ks[0], n) && all[1..] == rows;
        assert GroupRows(m, p, key, ks) == all;
      } else {
        assert GroupRows(m, p, key, ks) == [] + rows == rows;
      }
    }
  }

  /** Over distinct key values, the group sizes add up to the rows having one of them. */
  lemma {:induction false} GroupSizeSumIsCount<R, K>(m: map<Id, R>, p: R -> bool, key: R -> K, ks: seq<K>)
    requires forall i, j :: 0 <= i < j < |ks| ==> ks[i] != ks[j]
    ensures GroupSizeSum(m, p, key, ks) == |WithKeyIn(m, p, key, ks)|
  {
    if ks == [] {
      assert WithKeyIn(m, p, key, ks) == {};
    } else {
      var tail := ks[1..];
      assert forall i, j :: 0 <= i < j < |tail| ==> tail[i] != tail[j] by {
        forall i, j | 0 <= i < j < |tail| ensures tail[i] != tail[j] {
          assert tail[i] == ks[i + 1] && tail[j] == ks[j + 1];
        }
      }
      GroupSizeSumIsCount(m, p, key, tail);
      assert ks[0] !in tail by {
        forall i | 0 <= i < |tail| ensures tail[i] != ks[0] {
          assert tail[i] == ks[i + 1];
        }
      }
      SplitHead(m, p, key, ks);
    }
  }

  lemma SplitHead<R, K>(m: map<Id, R>, p: R -> bool, key: R -> K, ks: seq<K>)
    requires ks != [] && ks[0] !in ks[1..]
    ensures |WithKeyIn(m, p, key, ks)| == |Select(m, WithKey(p, key, ks[0]))| + |WithKeyIn(m, p, key, ks[1..])|
  {
    var head := Select(m, WithKey(p, key, ks[0]));
    var rest := WithKeyIn(m, p, key, ks[1..]);
    assert ks == [ks[0]] + ks[1..];
    assert WithKeyIn(m, p, key, ks) == head + rest;
    assert head * rest == {};
  }

  /**
   * When `ks` lists every key value exactly once, the grouped counts add up
   * to the number of rows satisfying `p`.
   */
  lemma GroupRowsTotal<R, K>(m: map<Id, R>, p: R -> bool, key: R -> K, ks: seq<K>)
    requires forall i, j :: 0 <= i < j < |ks| ==> ks[i] != ks[j]
    requires forall i :: i in m ==> key(m[i]) in ks
    ensures RowSum(GroupRows(m, p, key, ks)) == |Select(m, p)|
  {
    GroupRowsSum(m, p, key, ks);
    GroupSizeSumIsCount(m, p, key, ks);
    assert WithKeyIn(m, p, key, ks) == Select(m, p);
  }

  /**
   * A group-by result turned into a map: each (key, count) row becomes an
   * entry for its key; a later row for the same key wins.
   */
  method RowsToMap<K>(rows: seq<(K, nat)>) returns (m: map<K, nat>)
    ensures ConvertedFrom(m, rows)
  {
    m := map[];
    var i := 0;
    while i < |rows|
      invariant 0 <= i <= |rows|
      invariant m.Keys == set j | 0 <= j < i :: rows[j].0
      invariant forall j :: 0 <= j < i && (forall l :: j < l < i ==> rows[l].0 != rows[j].0) ==>
        m[rows[j].0] == rows[j].1
    {
      m := m[rows[i].0 := rows[i].1];
      i := i + 1;
    }
  }

  /** The keys of `m` are the row keys, and the last row of each key gives its value. */
  ghost predicate ConvertedFrom<K>(m: map<K, nat>, rows: seq<(K, nat)>)
  {
    && m.Keys == (set i | 0 <= i < |rows| :: rows[i].0)
    && forall i :: 0 <= i < |rows| && (forall j :: i < j < |rows| ==> rows[j].0 != rows[i].0) ==>
         m[rows[i].0] == rows[i].1
  }

  /** No later row has the key of row `j`. */
  ghost predicate LastWithKey<K>(rows: seq<(K, nat)>, j: nat)
    requires j < |rows|
  {
    forall l :: j < l < |rows| ==> rows[l].0 != rows[j].0
  }

  /** Every row key has a last row. */
  lemma {:induction false} LastRowOfKey<K>(rows: seq<(K, nat)>, i: nat)
    requires i < |rows|
    ensures exists j :: i <= j < |rows| && rows[j].0 == rows[i].0 && LastWithKey(rows, j)
    decreases |rows| - i
  {
    if l :| i < l < |rows| && rows[l].0 == rows[i].0 {
      LastRowOfKey(rows, l);
    } else {
      assert LastWithKey(rows, i);
    }
  }

  /**
   * When every row's value is determined by its key, the converted map
   * holds that value for each of its keys, whatever the duplicates.
   */
  lemma ConvertedFromKeyed<K>(m: map<K, nat>, rows: seq<(K, nat)>, f: K -> nat, k: K)
    requires ConvertedFrom(m, rows)
    requires forall i :: 0 <= i < |rows| ==> rows[i].1 == f(rows[i].0)
    requires k in m
    ensures m[k] == f(k)
  {
    var i :| 0 <= i < |rows| && rows[i].0 == k;
    LastRowOfKey(rows, i);
  }

  /**
   * The map of a group-by result over distinct key values has an entry
   * exactly for the key values that occur, holding the size of the group.
   */
  lemma GroupMap<R, K>(mp: map<Id, R>, p: R -> bool, key: R -> K, ks: seq<K>, m: map<K, nat>, k: K)
    requires forall i, j :: 0 <= i < j < |ks| ==> ks[i] != ks[j]
    requires k in ks
    requires ConvertedFrom(m, GroupRows(mp, p, key, ks))
    ensures k in m <==> |Select(mp, WithKey(p, key, k))| > 0
    ensures k in m ==> m[k] == |Select(mp, WithKey(p, key, k))|
  {
    var rows := GroupRows(mp, p, key, ks);
    if |Select(mp, WithKey(p, key, k))| > 0 {
      GroupRowsComplete(mp, p, key, ks, k);
    }
    if k in m {
      var i :| 0 <= i < |rows| && rows[i].0 == k;
      GroupRowsDistinct(mp, p, key, ks);
      assert forall j :: i < j < |rows| ==> rows[j].0 != rows[i].0;
    }
  }
}
