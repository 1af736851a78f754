// The audit store (`AuditLogRepository` over the `audit_logs` collection):
// entries in insertion order, an id counter for the ids the store assigns,
// and whether writes currently succeed.
module AuditRepository {
  import opened Common
  import opened Ordering
  import opened AuditModel

  /** The entries written before `cutoff`. */
  function Before(cutoff: Time): AuditLog -> bool
  {
    (e: AuditLog) => e.timestamp < cutoff
  }

  function AtOrAfter(cutoff: Time): AuditLog -> bool
  {
    (e: AuditLog) => e.timestamp >= cutoff
  }

  function OfEntityType(t: EntityType): AuditLog -> bool
  {
    (e: AuditLog) => e.entityType == t
  }

  function OfActionType(a: ActionType): AuditLog -> bool
  {
    (e: AuditLog) => e.actionType == a
  }

  /** A derived query `actorName = ?`: a null argument matches entries without an actor. */
  function ByActor(actor: Option<string>): AuditLog -> bool
  {
    (e: AuditLog) => e.actorName == actor
  }

  function ForEntity(t: EntityType, id: Id): AuditLog -> bool
  {
    (e: AuditLog) => e.entityType == t && e.entityId == Some(id)
  }

  function Between(start: Time, end: Time): AuditLog -> bool
  {
    (e: AuditLog) => start <= e.timestamp <= end
  }

  /**
   * The `findLogsByCriteria` document query, taken literally: each of entity
   * type, action type and actor holds when the entry lacks the field or the
   * field equals the argument, and a null argument equals only a null field.
   * Entity and action type are always present on an entry.
   */
  predicate MatchesCriteria(e: AuditLog, entityType: Option<EntityType>, actionType: Option<ActionType>,
                            actorName: Option<string>, start: Time, end: Time)
  {
    Some(e.entityType) == entityType &&
    Some(e.actionType) == actionType &&
    (e.actorName.None? || e.actorName == actorName) &&
    start <= e.timestamp <= end
  }

  function Criteria(entityType: Option<EntityType>, actionType: Option<ActionType>,
                    actorName: Option<string>, start: Time, end: Time): AuditLog -> bool
  {
    (e: AuditLog) => MatchesCriteria(e, entityType, actionType, actorName, start, end)
  }

  /** `OrderByTimestampDesc`. */
  function NewestFirst(): (AuditLog, AuditLog) -> bool
  {
    (a: AuditLog, b: AuditLog) => a.timestamp >= b.timestamp
  }

  lemma NewestFirstIsOrder()
    ensures Total(NewestFirst()) && Transitive(NewestFirst())
  {
  }

  /** The retention pass of `deleteByTimestampBefore`: one scan keeping the entries at or after the cutoff. */
  method KeepAtOrAfter(all: seq<AuditLog>, cutoff: Time) returns (kept: seq<AuditLog>)
    ensures kept == Filter(all, AtOrAfter(cutoff))
  {
    kept := [];
    var i := 0;
    while i < |all|
      invariant 0 <= i <= |all|
      invariant kept == Filter(all[..i], AtOrAfter(cutoff))
    {
      assert all[..i + 1] == all[..i] + [all[i]];
      FilterSnoc(all[..i], all[i], AtOrAfter(cutoff));
      if all[i].timestamp >= cutoff {
        kept := kept + [all[i]];
      }
      i := i + 1;
    }
    assert all[..i] == all;
  }

  /** The entries kept and the entries older than the cutoff make up the whole. */
  lemma RemovedCount(all: seq<AuditLog>, cutoff: Time)
    ensures |all| == |Filter(all, AtOrAfter(cutoff))| + Count(all, Before(cutoff))
  {
    FilterPartition(all, Before(cutoff));
    FilterExt(all, Not(Before(cutoff)), AtOrAfter(cutoff));
  }

  /** Keeping some of the entries keeps their ids below the counter. */
  lemma KeptIdsBelow(all: seq<AuditLog>, kept: seq<AuditLog>, nextId: nat)
    requires forall i :: 0 <= i < |all| ==> all[i].id.Some? && all[i].id.value < nextId
    requires forall e :: e in kept ==> e in all
    ensures forall k :: 0 <= k < |kept| ==> kept[k].id.Some? && kept[k].id.value < nextId
  {
    forall k | 0 <= k < |kept| ensures kept[k].id.Some? && kept[k].id.value < nextId {
      assert kept[k] in all;
    }
  }

  class AuditLogStore {
    var logs: seq<AuditLog>
    var nextId: nat
    /** Whether `save` succeeds; when it is false, a write throws. */
    var available: bool

    /** Every stored entry carries a store-assigned id below the counter. */
    ghost predicate Valid()
      reads this
    {
      forall i :: 0 <= i < |logs| ==> logs[i].id.Some? && logs[i].id.value < nextId
    }

    constructor(available: bool)
      ensures Valid()
      ensures logs == [] && this.available == available
    {
      logs := [];
      nextId := 0;
      this.available := available;
    }

    /** The entry as the store keeps it once `save` assigns id `id`. */
    static function Stamped(e: AuditLog, id: nat): (s: AuditLog)
      ensures s.id == Some(id)
      ensures s.(id := e.id) == e
    {
      e.(id := Some(id))
    }

    /**
     * `save`: when the store is up, the entry gets a fresh id and is appended;
     * otherwise the call fails and nothing changes.
     */
    method Save(e: AuditLog) returns (r: Result<AuditLog>)
      requires Valid()
      modifies this
      ensures Valid()
      ensures available == old(available)
      ensures old(available) ==> r == Ok(Stamped(e, old(nextId))) && logs == old(logs) + [r.value] && nextId == old(nextId) + 1
      ensures !old(available) ==> r.Err? && logs == old(logs) && nextId == old(nextId)
      ensures r.Ok? ==> forall i :: 0 <= i < |old(logs)| ==> old(logs)[i].id != r.value.id
    {
      if !available {
        return Err(StoreUnavailable);
      }
      var saved := Stamped(e, nextId);
      logs := logs + [saved];
      nextId := nextId + 1;
      r := Ok(saved);
    }

    /**
     * `deleteByTimestampBefore`: removes exactly the entries strictly older
     * than the cutoff, keeping the rest in order, and returns how many went.
     */
    method DeleteByTimestampBefore(cutoff: Time) returns (r: Result<nat>)
      requires Valid()
      modifies this`logs
      ensures Valid()
      ensures !available ==> r.Err? && logs == old(logs)
      ensures available ==> r.Ok? && logs == Filter(old(logs), AtOrAfter(cutoff))
      ensures available ==> r.value == Count(old(logs), Before(cutoff))
      ensures available ==> |old(logs)| == |logs| + r.value
    {
      if !available {
        return Err(StoreUnavailable);
      }
      var all := logs;
      var kept := KeepAtOrAfter(all, cutoff);
      RemovedCount(all, cutoff);
      KeptIdsBelow(all, kept, nextId);
      var removed := |all| - |kept|;
      logs := kept;
      r := Ok(removed);
    }

    /** `findRecentLogs`: entries at or after the cutoff, boundary included. */
    function FindRecentLogs(cutoff: Time): (r: seq<AuditLog>)
      reads this
      ensures forall e :: e in r <==> e in logs && e.timestamp >= cutoff
    {
      Filter(logs, AtOrAfter(cutoff))
    }

    function FindLogsByCriteria(entityType: Option<EntityType>, actionType: Option<ActionType>,
                                actorName: Option<string>, start: Time, end: Time): (r: seq<AuditLog>)
      reads this
      ensures forall e :: e in r <==> e in logs && MatchesCriteria(e, entityType, actionType, actorName, start, end)
    {
      Filter(logs, Criteria(entityType, actionType, actorName, start, end))
    }

    function FindByEntityType(t: EntityType): (r: seq<AuditLog>)
      reads this
      ensures forall e :: e in r <==> e in logs && e.entityType == t
    {
      Filter(logs, OfEntityType(t))
    }

    function FindByActionType(a: ActionType): (r: seq<AuditLog>)
      reads this
      ensures forall e :: e in r <==> e in logs && e.actionType == a
    {
      Filter(logs, OfActionType(a))
    }

    function FindByActorName(actor: Option<string>): (r: seq<AuditLog>)
      reads this
      ensures forall e :: e in r <==> e in logs && e.actorName == actor
    {
      Filter(logs, ByActor(actor))
    }

    function FindByEntityTypeAndActionType(t: EntityType, a: ActionType): (r: seq<AuditLog>)
      reads this
      ensures forall e :: e in r <==> e in logs && e.entityType == t && e.actionType == a
    {
      Filter(logs, (e: AuditLog) => e.entityType == t && e.actionType == a)
    }

    function FindByActorNameAndEntityType(actor: Option<string>, t: EntityType): (r: seq<AuditLog>)
      reads this
      ensures forall e :: e in r <==> e in logs && e.actorName == actor && e.entityType == t
    {
      Filter(logs, (e: AuditLog) => e.actorName == actor && e.entityType == t)
    }

    /** `findByEntityTypeAndEntityIdOrderByTimestampDesc`. */
    function FindForEntityNewestFirst(t: EntityType, id: Id): (r: seq<AuditLog>)
      reads this
      ensures multiset(r) == multiset(Filter(logs, ForEntity(t, id)))
      ensures forall e :: e in r <==> e in logs && e.entityType == t && e.entityId == Some(id)
      ensures forall i, j :: 0 <= i < j < |r| ==> r[i].timestamp >= r[j].timestamp
    {
      NewestFirstIsOrder();
      var f := Filter(logs, ForEntity(t, id));
      var r := SortBy(f, NewestFirst());
      SameMembers(r, f);
      InOrder(r);
      r
    }

    /** `findByTimestampBetweenOrderByTimestampDesc`, both ends inclusive. */
    function FindBetweenNewestFirst(start: Time, end: Time): (r: seq<AuditLog>)
      reads this
      ensures multiset(r) == multiset(Filter(logs, Between(start, end)))
      ensures forall e :: e in r <==> e in logs && start <= e.timestamp <= end
      ensures forall i, j :: 0 <= i < j < |r| ==> r[i].timestamp >= r[j].timestamp
    {
      NewestFirstIsOrder();
      var f := Filter(logs, Between(start, end));
      var r := SortBy(f, NewestFirst());
      SameMembers(r, f);
      InOrder(r);
      r
    }

    static lemma InOrder(r: seq<AuditLog>)
      requires SortedBy(r, NewestFirst())
      ensures forall i, j :: 0 <= i < j < |r| ==> r[i].timestamp >= r[j].timestamp
    {
      NewestFirstIsOrder();
      forall i, j | 0 <= i < j < |r| ensures r[i].timestamp >= r[j].timestamp {
        SortedPairwise(r, NewestFirst(), i, j);
      }
    }

    function CountByEntityType(t: EntityType): nat
      reads this
    {
      Count(logs, OfEntityType(t))
    }

    function CountByActionType(a: ActionType): nat
      reads this
    {
      Count(logs, OfActionType(a))
    }

    function CountByActorName(actor: Option<string>): nat
      reads this
    {
      Count(logs, ByActor(actor))
    }

    /** `findById`: the entry with that id, if any. */
    function FindById(id: nat): (r: Option<AuditLog>)
      reads this
      ensures r.None? <==> forall i :: 0 <= i < |logs| ==> logs[i].id != Some(id)
      ensures r.Some? ==> r.value in logs && r.value.id == Some(id)
    {
      FindIn(logs, id)
    }

    static function FindIn(s: seq<AuditLog>, id: nat): (r: Option<AuditLog>)
      ensures r.None? <==> forall i :: 0 <= i < |s| ==> s[i].id != Some(id)
      ensures r.Some? ==> r.value in s && r.value.id == Some(id)
    {
      if s == [] then None
      else if s[0].id == Some(id) then Some(s[0])
      else
        var r := FindIn(s[1..], id);
        assert forall i :: 1 <= i < |s| ==> s[i] == s[1..][i - 1];
        r
    }
  }

  /** Entries of one action type and of the others add up to all entries. */
  lemma {:induction false} ThreeWaySplit<T(!new)>(s: seq<T>, p: T -> bool, q: T -> bool, r: T -> bool)
    requires forall x :: (p(x) && !q(x) && !r(x)) || (!p(x) && q(x) && !r(x)) || (!p(x) && !q(x) && r(x))
    ensures Count(s, p) + Count(s, q) + Count(s, r) == |s|
  {
    if s != [] {
      ThreeWaySplit(s[1..], p, q, r);
    }
  }
}
