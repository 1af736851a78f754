// The queries of `DeveloperRepository`. The task count of a developer is the
// size of its LEFT JOIN group with the task table, zero included.
module DeveloperRepository {
  import opened Common
  import opened Domain
  import opened Text
  import opened Ordering

  /** `existsByEmail`. */
  predicate ExistsByEmail(developers: map<Id, Developer>, email: string)
  {
    exists k :: k in developers && developers[k].email == email
  }

  function EmailIs(email: string): Developer -> bool
  {
    (d: Developer) => d.email == email
  }

  /** `findByEmail`: present exactly when `existsByEmail` holds, for a table with unique e-mails. */
  function FindByEmail(developers: map<Id, Developer>, email: string): (r: Result<Option<Id>>)
    requires UniqueEmails(developers)
    ensures r.Ok?
    ensures r.value.Some? <==> ExistsByEmail(developers, email)
    ensures r.value.Some? ==> r.value.value in developers && developers[r.value.value].email == email
  {
    var matches := Select(developers, EmailIs(email));
    AtMostOneWithEmail(developers, email);
    FindOne(matches)
  }

  lemma AtMostOneWithEmail(developers: map<Id, Developer>, email: string)
    requires UniqueEmails(developers)
    ensures |Select(developers, EmailIs(email))| <= 1
  {
    var matches := Select(developers, EmailIs(email));
    if matches != {} {
      var a :| a in matches;
      assert matches == {a};
    }
  }

  /** The `unique = true` constraint on the e-mail column. */
  ghost predicate UniqueEmails(developers: map<Id, Developer>)
  {
    forall a, b :: a in developers && b in developers && developers[a].email == developers[b].email ==> a == b
  }

  /**
   * The rows of `Developer d JOIN d.skills s WHERE s IN skills`: one row per
   * developer and matching skill.
   */
  function SkillRows(developers: map<Id, Developer>, skills: set<string>): set<(Id, string)>
  {
    set k, s | k in developers && s in developers[k].skills && s in skills :: (k, s)
  }

  /** `findBySkill`: the case-sensitive join on one skill, one row per developer having it. */
  function FindBySkill(developers: map<Id, Developer>, skill: string): (r: set<(Id, string)>)
    ensures forall k, s :: (k, s) in r <==> k in developers && s == skill && skill in developers[k].skills
  {
    SkillRows(developers, {skill})
  }

  /** `countBySkill`: COUNT(DISTINCT d) over the same join. */
  function CountBySkill(developers: map<Id, Developer>, skill: string): nat
  {
    |Select(developers, HasSkill(skill))|
  }

  function HasSkill(skill: string): Developer -> bool
  {
    (d: Developer) => skill in d.skills
  }

  /** The join on one skill has no duplicate developer, so the count equals the rows found. */
  lemma CountBySkillMatchesFind(developers: map<Id, Developer>, skill: string)
    ensures CountBySkill(developers, skill) == |FindBySkill(developers, skill)|
  {
    var ids := Select(developers, HasSkill(skill));
    var rows := FindBySkill(developers, skill);
    assert rows == Tagged(ids, skill) by {
      forall row | row in rows ensures row in Tagged(ids, skill) {
        assert row.0 in ids;
      }
    }
    TaggedSize(ids, skill);
  }

  /** A skill is counted exactly when some developer holds it, and never for more developers than there are. */
  lemma CountBySkillMeaning(developers: map<Id, Developer>, skill: string)
    ensures CountBySkill(developers, skill) > 0 <==> exists k :: k in developers && skill in developers[k].skills
    ensures CountBySkill(developers, skill) <= |developers|
  {
    var holders := Select(developers, HasSkill(skill));
    if k :| k in developers && skill in developers[k].skills {
      assert k in holders;
    }
    SubsetSize(holders, developers.Keys);
  }

  /** Every id paired with one fixed skill. */
  function Tagged(ids: set<Id>, skill: string): set<(Id, string)>
  {
    set k | k in ids :: (k, skill)
  }

  lemma {:induction false} TaggedSize(ids: set<Id>, skill: string)
    ensures |Tagged(ids, skill)| == |ids|
    decreases |ids|
  {
    if ids != {} {
      var x :| x in ids;
      var rest := ids - {x};
      TaggedSize(rest, skill);
      assert (x, skill) !in Tagged(rest, skill);
      assert Tagged(ids, skill) == Tagged(rest, skill) + {(x, skill)};
    }
  }

  /** `findBySkillsIn`: DISTINCT developers having at least one of the listed skills. */
  function FindBySkillsIn(developers: map<Id, Developer>, skills: seq<string>): (r: set<Id>)
    ensures forall k :: k in r <==> k in developers && exists s :: s in skills && s in developers[k].skills
    ensures r == set row | row in SkillRows(developers, set s | s in skills) :: row.0
  {
    var r := set k | k in developers && exists s :: s in skills && s in developers[k].skills;
    assert r == set row | row in SkillRows(developers, set s | s in skills) :: row.0 by {
      forall k | k in r ensures k in set row | row in SkillRows(developers, set s | s in skills) :: row.0 {
        var s :| s in skills && s in developers[k].skills;
        assert (k, s) in SkillRows(developers, set s | s in skills);
      }
    }
    r
  }

  /** `findByNameContainingIgnoreCase`. */
  function FindByNameContainingIgnoreCase(developers: map<Id, Developer>, name: string): (r: set<Id>)
    ensures forall k :: k in r <==> k in developers && ContainsIgnoreCase(developers[k].name, name)
  {
    set k | k in developers && ContainsIgnoreCase(developers[k].name, name)
  }

  /** A name match is also a name-or-e-mail match, and an e-mail match that is not a name match is the rest. */
  lemma NameSearchWithinNameOrEmail(developers: map<Id, Developer>, term: string)
    ensures FindByNameContainingIgnoreCase(developers, term) <= FindByNameOrEmailContaining(developers, term)
    ensures forall k :: k in FindByNameOrEmailContaining(developers, term) - FindByNameContainingIgnoreCase(developers, term) ==>
      ContainsIgnoreCase(developers[k].email, term)
  {
  }

  /** `findByNameOrEmailContaining`. */
  function FindByNameOrEmailContaining(developers: map<Id, Developer>, term: string): (r: set<Id>)
    ensures forall k :: k in r <==>
      (k in developers && (ContainsIgnoreCase(developers[k].name, term) || ContainsIgnoreCase(developers[k].email, term)))
  {
    set k | k in developers && (ContainsIgnoreCase(developers[k].name, term) || ContainsIgnoreCase(developers[k].email, term))
  }

  // ---------------------------------------------------------------------
  // Task counts

  /** `findAvailableDevelopers(maxTasks)`: HAVING COUNT(t) < maxTasks. */
  function FindAvailableDevelopers(developers: map<Id, Developer>, tasks: map<Id, Task>, maxTasks: int): (r: set<Id>)
    ensures forall k :: k in r <==> k in developers && TaskCountOf(tasks, k) < maxTasks
  {
    set k | k in developers && TaskCountOf(tasks, k) < maxTasks
  }

  /** `findDevelopersWithTaskCount(n)`: HAVING COUNT(t) = n. */
  function FindDevelopersWithTaskCount(developers: map<Id, Developer>, tasks: map<Id, Task>, n: int): (r: set<Id>)
    ensures forall k :: k in r <==> k in developers && TaskCountOf(tasks, k) == n
  {
    set k | k in developers && TaskCountOf(tasks, k) == n
  }

  /** `findDevelopersWithTaskCountGreaterThan(n)`: HAVING COUNT(t) > n. */
  function FindDevelopersWithTaskCountGreaterThan(developers: map<Id, Developer>, tasks: map<Id, Task>, n: int): (r: set<Id>)
    ensures forall k :: k in r <==> k in developers && TaskCountOf(tasks, k) > n
  {
    set k | k in developers && TaskCountOf(tasks, k) > n
  }

  /** For any n, fewer than, exactly and more than n tasks split the developers. */
  lemma TaskCountPartition(developers: map<Id, Developer>, tasks: map<Id, Task>, n: int)
    ensures FindAvailableDevelopers(developers, tasks, n) * FindDevelopersWithTaskCount(developers, tasks, n) == {}
    ensures FindAvailableDevelopers(developers, tasks, n) * FindDevelopersWithTaskCountGreaterThan(developers, tasks, n) == {}
    ensures FindDevelopersWithTaskCount(developers, tasks, n) * FindDevelopersWithTaskCountGreaterThan(developers, tasks, n) == {}
    ensures FindAvailableDevelopers(developers, tasks, n) + FindDevelopersWithTaskCount(developers, tasks, n)
      + FindDevelopersWithTaskCountGreaterThan(developers, tasks, n) == developers.Keys
  {
    var a := FindAvailableDevelopers(developers, tasks, n);
    var b := FindDevelopersWithTaskCount(developers, tasks, n);
    var c := FindDevelopersWithTaskCountGreaterThan(developers, tasks, n);
    forall k | k in developers ensures k in a + b + c {
      var t := TaskCountOf(tasks, k);
      if t < n { assert k in a; } else if t == n { assert k in b; } else { assert k in c; }
    }
    assert a * b == {} && a * c == {} && b * c == {};
  }

  /** The three groups together have as many developers as the table. */
  lemma TaskCountPartitionSize(developers: map<Id, Developer>, tasks: map<Id, Task>, n: int)
    ensures |FindAvailableDevelopers(developers, tasks, n)| + |FindDevelopersWithTaskCount(developers, tasks, n)|
      + |FindDevelopersWithTaskCountGreaterThan(developers, tasks, n)| == |developers|
  {
    var a := FindAvailableDevelopers(developers, tasks, n);
    var b := FindDevelopersWithTaskCount(developers, tasks, n);
    var c := FindDevelopersWithTaskCountGreaterThan(developers, tasks, n);
    TaskCountPartition(developers, tasks, n);
    assert (a + b) * c == {};
    assert |a + b| == |a| + |b|;
    assert |a + b + c| == |a + b| + |c|;
  }

  /** `findDevelopersWithoutTasks`: `d.assignedTasks IS EMPTY`. */
  function FindDevelopersWithoutTasks(developers: map<Id, Developer>, tasks: map<Id, Task>): (r: set<Id>)
    ensures forall k :: k in r <==> k in developers && forall t :: t in tasks ==> tasks[t].developerId != Some(k)
  {
    set k | k in developers && forall t :: t in tasks ==> tasks[t].developerId != Some(k)
  }

  /** No assigned tasks is the same as a task count of zero. */
  lemma WithoutTasksIsCountZero(developers: map<Id, Developer>, tasks: map<Id, Task>)
    ensures FindDevelopersWithoutTasks(developers, tasks) == FindDevelopersWithTaskCount(developers, tasks, 0)
  {
    forall k | k in developers
      ensures (forall t :: t in tasks ==> tasks[t].developerId != Some(k)) <==> TaskCountOf(tasks, k) == 0
    {
      if TaskCountOf(tasks, k) != 0 {
        var t :| t in Select(tasks, AssignedTo(k));
      }
    }
  }

  /** The order of `ORDER BY COUNT(t) DESC`. */
  function MoreTasks(tasks: map<Id, Task>): (Id, Id) -> bool
  {
    (a: Id, b: Id) => TaskCountOf(tasks, a) >= TaskCountOf(tasks, b)
  }

  /**
   * `findTopDevelopersByTaskCount(PageRequest.of(0, limit))`: the first
   * `limit` developers by non-increasing task count; a page size below one
   * is rejected by `PageRequest.of`.
   */
  function FindTopDevelopersByTaskCount(developers: map<Id, Developer>, tasks: map<Id, Task>, bound: nat, limit: int): (r: Result<seq<Id>>)
    ensures r.Err? <==> limit < 1
    ensures r.Err? ==> r.error == InvalidArgument
    ensures r.Ok? ==> |r.value| <= limit
    ensures r.Ok? ==> forall i :: 0 <= i < |r.value| ==> r.value[i] in developers
    ensures r.Ok? ==> forall i, j :: 0 <= i < j < |r.value| ==> TaskCountOf(tasks, r.value[i]) >= TaskCountOf(tasks, r.value[j])
    ensures r.Ok? ==> forall i, j :: 0 <= i < j < |r.value| ==> r.value[i] != r.value[j]
    ensures r.Ok? ==> |r.value| == (if |Below(developers.Keys, bound)| < limit then |Below(developers.Keys, bound)| else limit)
    ensures r.Ok? ==> forall k, i :: k in developers && k < bound && k !in r.value && 0 <= i < |r.value| ==>
      TaskCountOf(tasks, k) <= TaskCountOf(tasks, r.value[i])
  {
    if limit < 1 then Err(InvalidArgument)
    else
      var ranked := RankByTaskCount(developers, tasks, bound);
      var n := if |ranked| < limit then |ranked| else limit;
      RankedPrefix(developers, tasks, ranked, n);
      LeftOutRankLower(developers, tasks, bound, ranked, n);
      Ok(ranked[..n])
  }

  /** A developer the page leaves out has no more tasks than any developer on the page. */
  lemma LeftOutRankLower(developers: map<Id, Developer>, tasks: map<Id, Task>, bound: nat, ranked: seq<Id>, n: nat)
    requires multiset(ranked) == multiset(IdsBelow(developers.Keys, bound))
    requires forall i, j :: 0 <= i < j < |ranked| ==> TaskCountOf(tasks, ranked[i]) >= TaskCountOf(tasks, ranked[j])
    requires n <= |ranked|
    ensures |ranked| == |Below(developers.Keys, bound)|
    ensures forall k, i :: k in developers && k < bound && k !in ranked[..n] && 0 <= i < n ==>
      TaskCountOf(tasks, k) <= TaskCountOf(tasks, ranked[..n][i])
  {
    assert |multiset(ranked)| == |IdsBelow(developers.Keys, bound)|;
    SameMembers(ranked, IdsBelow(developers.Keys, bound));
    forall k, i | k in developers && k < bound && k !in ranked[..n] && 0 <= i < n
      ensures TaskCountOf(tasks, k) <= TaskCountOf(tasks, ranked[..n][i])
    {
      assert k in IdsBelow(developers.Keys, bound);
      var m :| 0 <= m < |ranked| && ranked[m] == k;
      assert ranked[..n][i] == ranked[i];
    }
  }

  /** A prefix of a ranking is a ranking. */
  lemma RankedPrefix(developers: map<Id, Developer>, tasks: map<Id, Task>, ranked: seq<Id>, n: nat)
    requires n <= |ranked|
    requires forall i :: 0 <= i < |ranked| ==> ranked[i] in developers
    requires forall i, j :: 0 <= i < j < |ranked| ==> TaskCountOf(tasks, ranked[i]) >= TaskCountOf(tasks, ranked[j])
    requires forall i, j :: 0 <= i < j < |ranked| ==> ranked[i] != ranked[j]
    ensures forall i :: 0 <= i < n ==> ranked[..n][i] in developers
    ensures forall i, j :: 0 <= i < j < n ==> TaskCountOf(tasks, ranked[..n][i]) >= TaskCountOf(tasks, ranked[..n][j])
    ensures forall i, j :: 0 <= i < j < n ==> ranked[..n][i] != ranked[..n][j]
  {
  }

  /** All listed developers by non-increasing task count, each once. */
  function RankByTaskCount(developers: map<Id, Developer>, tasks: map<Id, Task>, bound: nat): (r: seq<Id>)
    ensures multiset(r) == multiset(IdsBelow(developers.Keys, bound))
    ensures forall i :: 0 <= i < |r| ==> r[i] in developers
    ensures forall i, j :: 0 <= i < j < |r| ==> TaskCountOf(tasks, r[i]) >= TaskCountOf(tasks, r[j])
    ensures forall i, j :: 0 <= i < j < |r| ==> r[i] != r[j]
  {
    var ids := IdsBelow(developers.Keys, bound);
    var le := MoreTasks(tasks);
    assert Total(le);
    assert Transitive(le);
    var r := SortBy(ids, le);
    forall i | 0 <= i < |r| ensures r[i] in developers {
      assert r[i] in multiset(r);
    }
    forall i, j | 0 <= i < j < |r| ensures TaskCountOf(tasks, r[i]) >= TaskCountOf(tasks, r[j]) {
      SortedPairwise(r, le, i, j);
    }
    forall i, j | 0 <= i < j < |r| ensures r[i] != r[j] {
      DistinctKept(ids, r, i, j);
    }
    r
  }

  /** A row of `getDeveloperTaskStatistics`. */
  datatype DeveloperTaskRow = DeveloperTaskRow(id: Id, name: string, email: string, taskCount: nat)

  /**
   * `getDeveloperTaskStatistics`: one row per developer with its number of
   * assigned tasks, most tasks first (`ORDER BY task_count DESC`).
   */
  function GetDeveloperTaskStatistics(developers: map<Id, Developer>, tasks: map<Id, Task>, bound: nat): (r: seq<DeveloperTaskRow>)
    ensures forall i :: 0 <= i < |r| ==> r[i].id in developers && r[i] == TaskRow(developers, tasks, r[i].id)
    ensures forall i, j :: 0 <= i < j < |r| ==> r[i].id != r[j].id && r[i].taskCount >= r[j].taskCount
    ensures forall k :: k in developers && k < bound <==> k in RowIds(r)
  {
    var ranked := RankByTaskCount(developers, tasks, bound);
    var r := TaskRows(developers, tasks, ranked);
    SameMembers(ranked, IdsBelow(developers.Keys, bound));
    assert RowIds(r) == ranked;
    r
  }

  /** The row of one developer: its id, name, e-mail and number of assigned tasks. */
  function TaskRow(developers: map<Id, Developer>, tasks: map<Id, Task>, k: Id): DeveloperTaskRow
    requires k in developers
  {
    DeveloperTaskRow(k, developers[k].name, developers[k].email, TaskCountOf(tasks, k))
  }

  /** The rows of the listed developers, in the listed order. */
  function TaskRows(developers: map<Id, Developer>, tasks: map<Id, Task>, ids: seq<Id>): (r: seq<DeveloperTaskRow>)
    requires forall i :: 0 <= i < |ids| ==> ids[i] in developers
    ensures |r| == |ids|
    ensures forall i :: 0 <= i < |r| ==> r[i] == TaskRow(developers, tasks, ids[i])
  {
    if ids == [] then [] else [TaskRow(developers, tasks, ids[0])] + TaskRows(developers, tasks, ids[1..])
  }

  /** The developer ids of the rows, in order. */
  function RowIds(r: seq<DeveloperTaskRow>): (ids: seq<Id>)
    ensures |ids| == |r|
    ensures forall i :: 0 <= i < |r| ==> ids[i] == r[i].id
  {
    if r == [] then [] else [r[0].id] + RowIds(r[1..])
  }

  /** A permutation of a strictly increasing list has no repeated element. */
  lemma DistinctKept(ids: seq<Id>, r: seq<Id>, i: int, j: int)
    requires forall a, b :: 0 <= a < b < |ids| ==> ids[a] < ids[b]
    requires multiset(r) == multiset(ids)
    requires 0 <= i < j < |r|
    ensures r[i] != r[j]
  {
    if r[i] == r[j] {
      var x := r[i];
      assert multiset(r)[x] >= 2 by {
        assert r == r[..i] + [x] + r[i + 1..j] + [x] + r[j + 1..];
      }
      CountOnce(ids, x);
    }
  }

  lemma {:induction false} CountOnce(ids: seq<Id>, x: Id)
    requires forall a, b :: 0 <= a < b < |ids| ==> ids[a] < ids[b]
    ensures multiset(ids)[x] <= 1
  {
    if ids != [] {
      var tail := ids[1..];
      assert ids == [ids[0]] + tail;
      CountOnce(tail, x);
      if ids[0] == x {
        assert x !in tail by {
          forall a | 0 <= a < |tail| ensures tail[a] != x {
            assert tail[a] == ids[a + 1];
          }
        }
      }
    }
  }
}
