// Shared vocabulary of the model: optional values, results carrying the
// service layer's error kinds, identifiers, the integer clock, and generic
// filters and counts over sequences and tables.
module Common {

  datatype Option<T> = None | Some(value: T)

  /** The exceptions the services throw, one constructor per distinct cause. */
  datatype Error =
    | NotFound             // "... not found with id" / EntityNotFoundException
    | DuplicateEmail       // "... already exists" on an e-mail
    | DuplicateName        // "Project with name ... already exists"
    | DuplicateUsername    // "Username is already taken!"
    | BadCredentials       // BadCredentialsException
    | PasswordMismatch     // new password differs from its confirmation
    | NonUniqueResult      // a single-result finder matched several rows
    | UnsupportedProvider  // OAuth2 registration id not supported
    | MissingEmail         // OAuth2 provider gave no e-mail
    | NullArgument         // NullPointerException on a null argument
    | IndexOutOfBounds     // ArrayIndexOutOfBoundsException
    | ClassCast            // an OAuth2 attribute of the wrong type
    | AdminRoleMissing     // "Admin role not found"
    | Unauthenticated      // no authenticated user in the security context
    | StoreUnavailable     // the audit store refused a write
    | InvalidArgument      // IllegalArgumentException from a library call
    | OAuth2Failure        // OAuth2AuthenticationException("Error processing OAuth2 user")

  datatype Result<T> = Ok(value: T) | Err(error: Error)

  /** Database identity values. */
  type Id = nat

  /** Instants as whole seconds; a day is a fixed number of seconds. */
  type Time = int

  const DAY: int := 86400

  /** `now.minusDays(days)` on the integer clock. */
  function MinusDays(now: Time, days: int): Time
  {
    now - days * DAY
  }

  // ---------------------------------------------------------------------
  // Sequences

  /** The elements of `s` satisfying `p`, in their original order. */
  function Filter<T(!new)>(s: seq<T>, p: T -> bool): (r: seq<T>)
    ensures |r| <= |s|
    ensures forall x :: x in r <==> x in s && p(x)
  {
    if s == [] then [] else (if p(s[0]) then [s[0]] else []) + Filter(s[1..], p)
  }

  /** Number of elements of `s` satisfying `p`. */
  function Count<T(!new)>(s: seq<T>, p: T -> bool): nat
  {
    |Filter(s, p)|
  }

  function Not<T>(p: T -> bool): T -> bool
  {
    x => !p(x)
  }

  lemma {:induction false} FilterAppend<T(!new)>(a: seq<T>, b: seq<T>, p: T -> bool)
    ensures Filter(a + b, p) == Filter(a, p) + Filter(b, p)
  {
    if a == [] {
      assert a + b == b;
    } else {
      assert (a + b)[0] == a[0];
      assert (a + b)[1..] == a[1..] + b;
      FilterAppend(a[1..], b, p);
    }
  }

  /** Filtering a sequence extended by one element. */
  lemma FilterSnoc<T(!new)>(s: seq<T>, x: T, p: T -> bool)
    ensures Filter(s + [x], p) == Filter(s, p) + (if p(x) then [x] else [])
  {
    FilterAppend(s, [x], p);
    assert [x][1..] == [];
  }

  /** Every element is kept by `p` or by its complement, never by both. */
  lemma {:induction false} FilterPartition<T(!new)>(s: seq<T>, p: T -> bool)
    ensures |Filter(s, p)| + |Filter(s, Not(p))| == |s|
  {
    if s != [] {
      FilterPartition(s[1..], p);
    }
  }

  /** Filters with pointwise-equal predicates agree. */
  lemma {:induction false} FilterExt<T(!new)>(s: seq<T>, p: T -> bool, q: T -> bool)
    requires forall x :: p(x) == q(x)
    ensures Filter(s, p) == Filter(s, q)
  {
    if s != [] {
      FilterExt(s[1..], p, q);
    }
  }

  /** A stronger predicate keeps no more elements. */
  lemma {:induction false} FilterMonotone<T(!new)>(s: seq<T>, p: T -> bool, q: T -> bool)
    requires forall x :: p(x) ==> q(x)
    ensures |Filter(s, p)| <= |Filter(s, q)|
  {
    if s != [] {
      FilterMonotone(s[1..], p, q);
    }
  }

  /** Position of the first element equal to `x`, or `|s|` when there is none. */
  function FirstIndex<T(==)>(s: seq<T>, x: T): (i: nat)
    ensures i <= |s|
    ensures x !in s[..i]
    ensures i < |s| ==> s[i] == x
  {
    if s == [] || s[0] == x then 0
    else
      var j := FirstIndex(s[1..], x);
      assert s[..1 + j] == [s[0]] + s[1..][..j];
      1 + j
  }

  /** `List.remove(Object)`: drops the first element equal to `x`, if any. */
  function RemoveFirst<T(==)>(s: seq<T>, x: T): (r: seq<T>)
    ensures x !in s ==> r == s
    ensures x in s ==> |r| == |s| - 1
    ensures multiset(r) == multiset(s) - multiset{x}
    ensures r[..FirstIndex(s, x)] == s[..FirstIndex(s, x)]
  {
    var i := FirstIndex(s, x);
    if i == |s| then
      assert s[..i] == s;
      s
    else
      assert s == s[..i] + [x] + s[i + 1..];
      s[..i] + s[i + 1..]
  }

  /** Appending an absent element and removing it again restores the list. */
  lemma AppendThenRemoveFirst<T>(s: seq<T>, x: T)
    requires x !in s
    ensures RemoveFirst(s + [x], x) == s
  {
    var t := s + [x];
    var i := FirstIndex(t, x);
    assert forall k :: 0 <= k < |s| ==> t[k] == s[k];
    assert t[..|t|] == t && t[|s|] == x;
    assert i == |s|;
    assert t[..i] == s;
  }

  // ---------------------------------------------------------------------
  // Tables

  /** Keys of the rows of `m` whose value satisfies `p`. */
  function Select<V>(m: map<Id, V>, p: V -> bool): (r: set<Id>)
    ensures r <= m.Keys
    ensures forall k :: k in r <==> k in m && p(m[k])
  {
    set k | k in m && p(m[k])
  }

  /** Sequences with the same multiset have the same members. */
  lemma SameMembers<T>(a: seq<T>, b: seq<T>)
    requires multiset(a) == multiset(b)
    ensures forall e :: e in a <==> e in b
  {
    forall e ensures e in a <==> e in b {
      assert e in a <==> e in multiset(a);
      assert e in b <==> e in multiset(b);
    }
  }

  /** A subset has no more elements than the set containing it. */
  lemma SubsetSize<T>(a: set<T>, b: set<T>)
    requires a <= b
    ensures |a| <= |b|
  {
    assert b == a + (b - a);
  }

  /** Selecting by `p` and by its complement splits the table's keys. */
  lemma SelectPartition<V>(m: map<Id, V>, p: V -> bool)
    ensures Select(m, p) * Select(m, Not(p)) == {}
    ensures |Select(m, p)| + |Select(m, Not(p))| == |m.Keys|
  {
    assert Select(m, p) + Select(m, Not(p)) == m.Keys;
  }

  lemma SingletonUnique(s: set<Id>)
    requires |s| == 1
    ensures forall a, b :: a in s && b in s ==> a == b
  {
    forall a, b | a in s && b in s ensures a == b {
      assert |s - {a}| == 0;
      assert b !in s - {a};
    }
  }

  /**
   * A Spring Data finder returning `Optional`: empty when nothing matches,
   * the match when exactly one row matches, and an
   * IncorrectResultSizeDataAccessException otherwise.
   */
  function FindOne(matches: set<Id>): (r: Result<Option<Id>>)
    ensures r == Ok(None) <==> matches == {}
    ensures (r.Ok? && r.value.Some?) <==> |matches| == 1
    ensures r.Ok? && r.value.Some? ==> matches == {r.value.value}
    ensures r.Err? <==> |matches| > 1
    ensures r.Err? ==> r.error == NonUniqueResult
  {
    if matches == {} then Ok(None)
    else if |matches| == 1 then
      SingletonUnique(matches);
      var x :| x in matches; Ok(Some(x))
    else Err(NonUniqueResult)
  }

  // ---------------------------------------------------------------------
  // Finite sums

  /** Sum of `f` over the elements of a sequence. */
  function SumOf<T>(s: seq<T>, f: T -> nat): nat
  {
    if s == [] then 0 else f(s[0]) + SumOf(s[1..], f)
  }

  lemma {:induction false} SumOfAppend<T>(a: seq<T>, b: seq<T>, f: T -> nat)
    ensures SumOf(a + b, f) == SumOf(a, f) + SumOf(b, f)
  {
    if a == [] {
      assert a + b == b;
    } else {
      assert (a + b)[1..] == a[1..] + b;
      SumOfAppend(a[1..], b, f);
    }
  }

  /** Sum of the values of a finite map, independent of any key order. */
  ghost function MapSum(m: map<string, nat>): nat
    decreases |m|
  {
    if |m| == 0 then 0
    else
      var k := AnyKey(m);
      m[k] + MapSum(m - {k})
  }

  ghost function AnyKey(m: map<string, nat>): (k: string)
    requires |m| > 0
    ensures k in m
  {
    assert m.Keys != {};
    var k :| k in m; k
  }

  /** Any key may be taken out first. */
  lemma {:induction false} MapSumRemove(m: map<string, nat>, k: string)
    requires k in m
    ensures MapSum(m) == m[k] + MapSum(m - {k})
    decreases |m|
  {
    var j := AnyKey(m);
    if j != k {
      var mj, mk := m - {j}, m - {k};
      assert mj.Keys == m.Keys - {j} && mk.Keys == m.Keys - {k};
      MapSumRemove(mj, k);
      MapSumRemove(mk, j);
      assert mj - {k} == mk - {j};
    }
  }

  /** Setting one value changes the sum by the difference. */
  lemma MapSumUpdate(m: map<string, nat>, k: string, v: nat)
    ensures MapSum(m[k := v]) + (if k in m then m[k] else 0) == MapSum(m) + v
  {
    var n := m[k := v];
    MapSumRemove(n, k);
    assert n - {k} == m - {k};
    if k in m {
      MapSumRemove(m, k);
    } else {
      assert m - {k} == m;
    }
  }
}
