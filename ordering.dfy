// Orderings used by the store: ascending identity order for `findAll`,
// a stable insertion sort for ORDER BY clauses, and the character-code
// order on strings.
module Ordering {
  import opened Common

  /** The ids of `keys` below `bound` in ascending order, one entry per id. */
  function IdsBelow(keys: set<Id>, bound: nat): (r: seq<Id>)
    ensures forall x :: x in r <==> x in keys && x < bound
    ensures forall i, j :: 0 <= i < j < |r| ==> r[i] < r[j]
    ensures |r| == |Below(keys, bound)|
  {
    if bound == 0 then
      NothingBelowZero(keys);
      []
    else
      var prefix := IdsBelow(keys, bound - 1);
      var r := prefix + (if bound - 1 in keys then [bound - 1] else []);
      assert forall i :: 0 <= i < |prefix| ==> prefix[i] in prefix;
      assert forall i :: 0 <= i < |prefix| ==> prefix[i] < bound - 1;
      BelowStep(keys, bound);
      r
  }

  function Below(keys: set<Id>, bound: nat): set<Id>
  {
    set x | x in keys && x < bound
  }

  lemma NothingBelowZero(keys: set<Id>)
    ensures |Below(keys, 0)| == 0
  {
    assert Below(keys, 0) == {};
  }

  lemma BelowStep(keys: set<Id>, bound: nat)
    requires bound > 0
    ensures |Below(keys, bound)| == |Below(keys, bound - 1)| + (if bound - 1 in keys then 1 else 0)
  {
    var prev := Below(keys, bound - 1);
    if bound - 1 in keys {
      assert Below(keys, bound) == prev + {bound - 1};
    } else {
      assert Below(keys, bound) == prev;
    }
  }

  /** With every key below the bound, the ascending listing has one entry per key. */
  lemma ListsEveryKeyOnce(keys: set<Id>, bound: nat)
    requires forall x :: x in keys ==> x < bound
    ensures |IdsBelow(keys, bound)| == |keys|
  {
    assert Below(keys, bound) == keys;
  }

  /** When every key lies below the bound, the keys below it are all the keys. */
  lemma BelowAllKeys(keys: set<Id>, bound: nat)
    ensures (forall x :: x in keys ==> x < bound) ==> Below(keys, bound) == keys
  {
  }

  ghost predicate Total<T(!new)>(le: (T, T) -> bool)
  {
    forall a, b :: le(a, b) || le(b, a)
  }

  ghost predicate Transitive<T(!new)>(le: (T, T) -> bool)
  {
    forall a, b, c :: le(a, b) && le(b, c) ==> le(a, c)
  }

  /** Every element is related by `le` to its successor. */
  predicate SortedBy<T>(s: seq<T>, le: (T, T) -> bool)
  {
    forall i :: 0 <= i < |s| - 1 ==> le(s[i], s[i + 1])
  }

  function Insert<T(!new)>(x: T, s: seq<T>, le: (T, T) -> bool): (r: seq<T>)
    requires Total(le)
    requires SortedBy(s, le)
    ensures SortedBy(r, le)
    ensures multiset(r) == multiset(s) + multiset{x}
    ensures r[0] == x || (s != [] && r[0] == s[0])
  {
    if s == [] then [x]
    else if le(x, s[0]) then [x] + s
    else
      var rest := Insert(x, s[1..], le);
      assert s == [s[0]] + s[1..];
      [s[0]] + rest
  }

  /** Insertion sort: a sorted permutation of its input. */
  function SortBy<T(!new)>(s: seq<T>, le: (T, T) -> bool): (r: seq<T>)
    requires Total(le)
    ensures SortedBy(r, le)
    ensures multiset(r) == multiset(s)
  {
    if s == [] then []
    else
      assert s == [s[0]] + s[1..];
      Insert(s[0], SortBy(s[1..], le), le)
  }

  /** For a transitive order, sorted neighbours mean sorted pairs. */
  lemma {:induction false} SortedPairwise<T(!new)>(s: seq<T>, le: (T, T) -> bool, i: int, j: int)
    requires Transitive(le)
    requires SortedBy(s, le)
    requires 0 <= i < j < |s|
    ensures le(s[i], s[j])
    decreases j - i
  {
    if j > i + 1 {
      SortedPairwise(s, le, i + 1, j);
    }
  }

  /** Lexicographic order on character codes (prefixes first). */
  predicate LexLe(a: string, b: string)
  {
    a == [] || (b != [] && (a[0] < b[0] || (a[0] == b[0] && LexLe(a[1..], b[1..]))))
  }

  lemma {:induction false} LexTotal(a: string, b: string)
    ensures LexLe(a, b) || LexLe(b, a)
  {
    if a != [] && b != [] && a[0] == b[0] {
      LexTotal(a[1..], b[1..]);
    }
  }

  lemma {:induction false} LexTransitive(a: string, b: string, c: string)
    requires LexLe(a, b) && LexLe(b, c)
    ensures LexLe(a, c)
  {
    if a != [] && b != [] && c != [] && a[0] == b[0] && b[0] == c[0] {
      LexTransitive(a[1..], b[1..], c[1..]);
    }
  }

  lemma {:induction false} LexAntisymmetric(a: string, b: string)
    requires LexLe(a, b) && LexLe(b, a)
    ensures a == b
  {
    if a != [] && b != [] {
      LexAntisymmetric(a[1..], b[1..]);
      assert a == [a[0]] + a[1..];
      assert b == [b[0]] + b[1..];
    }
  }
}
