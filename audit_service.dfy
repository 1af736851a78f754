// The audit recorder (`AuditLogServiceImpl`): recording never fails its
// caller, searches default their window, and the statistics are counts over
// the stored entries.
module AuditService {
  import opened Common
  import opened AuditModel
  import opened AuditRepository

  /** What one `logAction` leaves in the store: the stamped entry, or nothing when the store is down. */
  function Recorded(e: AuditLog, available: bool, id: nat): (r: seq<AuditLog>)
    ensures available ==> r == [AuditLogStore.Stamped(e, id)]
    ensures !available ==> r == []
  {
    if available then [AuditLogStore.Stamped(e, id)] else []
  }

  /** The store holds what it held before plus what one `logAction` of `e` leaves. */
  twostate predicate LoggedOnce(store: AuditLogStore, e: AuditLog)
    reads store
  {
    store.logs == old(store.logs) + Recorded(e, old(store.available), old(store.nextId))
  }

  /** `searchLogs` defaults: a missing end is now, a missing start is thirty days before now. */
  function SearchWindow(startDate: Option<Time>, endDate: Option<Time>, now: Time): (w: (Time, Time))
    ensures endDate.Some? ==> w.1 == endDate.value
    ensures endDate.None? ==> w.1 == now
    ensures startDate.Some? ==> w.0 == startDate.value
    ensures startDate.None? ==> w.0 == now - 30 * DAY
  {
    (if startDate.Some? then startDate.value else MinusDays(now, 30),
     if endDate.Some? then endDate.value else now)
  }

  /** The actor names that occur in the entries. */
  function Actors(logs: seq<AuditLog>): set<string>
  {
    set i | 0 <= i < |logs| && logs[i].actorName.Some? :: logs[i].actorName.value
  }

  /** The number of entries per actor, accumulated entry by entry as the counting collector does. */
  function ActorCounts(logs: seq<AuditLog>): map<string, nat>
    decreases |logs|
  {
    if logs == [] then map[]
    else
      var m := ActorCounts(logs[..|logs| - 1]);
      var e := logs[|logs| - 1];
      if e.actorName.Some? then m[e.actorName.value := ActorEntry(m, e.actorName.value) + 1] else m
  }

  /** An actor's count so far, zero before its first entry. */
  function ActorEntry(m: map<string, nat>, a: string): nat
  {
    if a in m then m[a] else 0
  }

  /** The per-actor counts add up to the number of entries when every entry has an actor. */
  lemma {:induction false} ActorCountsSum(logs: seq<AuditLog>)
    requires forall i :: 0 <= i < |logs| ==> logs[i].actorName.Some?
    ensures MapSum(ActorCounts(logs)) == |logs|
    decreases |logs|
  {
    if logs == [] {
      assert ActorCounts(logs) == map[];
    } else {
      var init, e := logs[..|logs| - 1], logs[|logs| - 1];
      assert forall i :: 0 <= i < |init| ==> init[i].actorName.Some?;
      ActorCountsSum(init);
      var m, a := ActorCounts(init), e.actorName.value;
      assert ActorCounts(logs) == m[a := ActorEntry(m, a) + 1];
      MapSumUpdate(m, a, ActorEntry(m, a) + 1);
    }
  }

  /** The accumulated count of an actor is its number of entries. */
  lemma {:induction false} ActorCountIs(logs: seq<AuditLog>, a: string)
    ensures ActorEntry(ActorCounts(logs), a) == Count(logs, ByActor(Some(a)))
    decreases |logs|
  {
    if logs != [] {
      var init, e := logs[..|logs| - 1], logs[|logs| - 1];
      assert logs == init + [e];
      ActorCountIs(init, a);
      CountAppendOne(init, e, a);
    }
  }

  /** The actors counted are exactly the actors that occur. */
  lemma {:induction false} ActorKeys(logs: seq<AuditLog>)
    ensures ActorCounts(logs).Keys == Actors(logs)
    decreases |logs|
  {
    if logs == [] {
      assert Actors(logs) == {};
    } else {
      var init, e := logs[..|logs| - 1], logs[|logs| - 1];
      assert logs == init + [e];
      ActorKeys(init);
      ActorsAppend(init, e);
    }
  }

  /** Every occurring actor is counted, with its number of entries. */
  lemma ActorCountsMeaning(logs: seq<AuditLog>)
    ensures ActorCounts(logs).Keys == Actors(logs)
    ensures forall a :: a in ActorCounts(logs) ==> ActorCounts(logs)[a] == Count(logs, ByActor(Some(a)))
  {
    ActorKeys(logs);
    forall a | a in ActorCounts(logs) ensures ActorCounts(logs)[a] == Count(logs, ByActor(Some(a))) {
      ActorCountIs(logs, a);
    }
  }

  /**
   * `groupingBy(getActorName, counting())` over the entries: a null actor
   * makes the collector throw; otherwise the per-actor counts.
   */
  function ActorStatistics(logs: seq<AuditLog>): (r: Result<map<string, nat>>)
    ensures r.Err? <==> exists i :: 0 <= i < |logs| && logs[i].actorName.None?
    ensures r.Err? ==> r.error == NullArgument
    ensures r.Ok? ==> r.value.Keys == Actors(logs)
    ensures r.Ok? ==> forall a :: a in r.value ==> r.value[a] == Count(logs, ByActor(Some(a)))
    ensures r.Ok? ==> MapSum(r.value) == |logs|
  {
    if forall i :: 0 <= i < |logs| ==> logs[i].actorName.Some? then
      ActorCountsSum(logs);
      ActorCountsMeaning(logs);
      Ok(ActorCounts(logs))
    else
      Err(NullArgument)
  }

  lemma CountAppendOne(init: seq<AuditLog>, e: AuditLog, b: string)
    ensures Count(init + [e], ByActor(Some(b))) == Count(init, ByActor(Some(b))) + (if e.actorName == Some(b) then 1 else 0)
  {
    FilterSnoc(init, e, ByActor(Some(b)));
  }

  lemma ActorsAppend(init: seq<AuditLog>, e: AuditLog)
    ensures Actors(init + [e]) == Actors(init) + (if e.actorName.Some? then {e.actorName.value} else {})
  {
    var logs := init + [e];
    forall x | x in Actors(logs) ensures x in Actors(init) + (if e.actorName.Some? then {e.actorName.value} else {}) {
      var i :| 0 <= i < |logs| && logs[i].actorName.Some? && logs[i].actorName.value == x;
      if i < |init| { assert init[i] == logs[i]; }
    }
    forall x | x in Actors(init) ensures x in Actors(logs) {
      var i :| 0 <= i < |init| && init[i].actorName.Some? && init[i].actorName.value == x;
      assert logs[i] == init[i];
    }
    assert logs[|init|] == e;
  }

  class AuditLogService {
    const store: AuditLogStore

    constructor(store: AuditLogStore)
      ensures this.store == store
    {
      this.store := store;
    }

    /**
     * `logAction`: builds the entry with the current time and saves it; a
     * failing store is swallowed, so the caller always continues.
     */
    method LogAction(actionType: ActionType, entityType: EntityType, entityId: Option<Id>,
                     actorName: Option<string>, payload: Payload, now: Time)
      requires store.Valid()
      modifies store
      ensures store.Valid() && store.available == old(store.available)
      ensures store.logs == old(store.logs) +
        Recorded(NewAuditLog(actionType, entityType, entityId, actorName, payload, now), old(store.available), old(store.nextId))
      ensures store.nextId == old(store.nextId) + (if old(store.available) then 1 else 0)
    {
      var entry := NewAuditLog(actionType, entityType, entityId, actorName, payload, now);
      var saved := store.Save(entry);
    }

    /** `getRecentLogs(days)`: the entries at or after `now` minus `days` days. */
    function GetRecentLogs(days: int, now: Time): (r: seq<AuditLog>)
      reads store
      ensures forall e :: e in r <==> e in store.logs && e.timestamp >= now - days * DAY
    {
      store.FindRecentLogs(MinusDays(now, days))
    }

    /** `searchLogs`: the literal criteria query over the defaulted window, as summaries. */
    function SearchLogs(entityType: Option<EntityType>, actionType: Option<ActionType>, actorName: Option<string>,
                        startDate: Option<Time>, endDate: Option<Time>, now: Time): (r: seq<AuditLogSummary>)
      reads store
      ensures forall s :: s in r ==>
        exists e :: e in store.logs && s == Summarize(e) &&
          MatchesCriteria(e, entityType, actionType, actorName, SearchWindow(startDate, endDate, now).0, SearchWindow(startDate, endDate, now).1)
      ensures forall e :: (&& e in store.logs
                           && MatchesCriteria(e, entityType, actionType, actorName,
                                              SearchWindow(startDate, endDate, now).0, SearchWindow(startDate, endDate, now).1)) ==>
        Summarize(e) in r
    {
      var w := SearchWindow(startDate, endDate, now);
      var found := store.FindLogsByCriteria(entityType, actionType, actorName, w.0, w.1);
      var r := seq(|found|, i requires 0 <= i < |found| => Summarize(found[i]));
      assert forall i :: 0 <= i < |found| ==> found[i] in found;
      assert forall e :: e in found ==> Summarize(e) in r by {
        forall e | e in found ensures Summarize(e) in r {
          var i :| 0 <= i < |found| && found[i] == e;
          assert r[i] == Summarize(e);
        }
      }
      r
    }

    /** `getAuditStatistics`: the total and the seven- and thirty-day windows, which nest. */
    function GetAuditStatistics(now: Time): (r: map<string, nat>)
      reads store
      ensures r.Keys == {"totalLogs", "recentLogs7Days", "recentLogs30Days"}
      ensures r["totalLogs"] == |store.logs|
      ensures r["recentLogs7Days"] == |GetRecentLogs(7, now)| && r["recentLogs30Days"] == |GetRecentLogs(30, now)|
      ensures r["recentLogs7Days"] <= r["recentLogs30Days"] <= r["totalLogs"]
    {
      FilterMonotone(store.logs, AtOrAfter(MinusDays(now, 7)), AtOrAfter(MinusDays(now, 30)));
      map["totalLogs" := |store.logs|,
          "recentLogs7Days" := |GetRecentLogs(7, now)|,
          "recentLogs30Days" := |GetRecentLogs(30, now)|]
    }

    /** `getEntityTypeStatistics`: one count per entity type, adding up to the total. */
    function GetEntityTypeStatistics(): (r: map<string, nat>)
      reads store
      ensures r.Keys == {"PROJECT", "TASK", "DEVELOPER"}
      ensures r["PROJECT"] == store.CountByEntityType(ProjectEntity)
      ensures r["TASK"] == store.CountByEntityType(TaskEntity)
      ensures r["DEVELOPER"] == store.CountByEntityType(DeveloperEntity)
      ensures r["PROJECT"] + r["TASK"] + r["DEVELOPER"] == |store.logs|
    {
      ThreeWaySplit(store.logs, OfEntityType(ProjectEntity), OfEntityType(TaskEntity), OfEntityType(DeveloperEntity));
      map["PROJECT" := store.CountByEntityType(ProjectEntity),
          "TASK" := store.CountByEntityType(TaskEntity),
          "DEVELOPER" := store.CountByEntityType(DeveloperEntity)]
    }

    /** `getActionTypeStatistics`: one count per action type, adding up to the total. */
    function GetActionTypeStatistics(): (r: map<string, nat>)
      reads store
      ensures r.Keys == {"CREATE", "UPDATE", "DELETE"}
      ensures r["CREATE"] == store.CountByActionType(Create)
      ensures r["UPDATE"] == store.CountByActionType(Update)
      ensures r["DELETE"] == store.CountByActionType(Delete)
      ensures r["CREATE"] + r["UPDATE"] + r["DELETE"] == |store.logs|
    {
      ThreeWaySplit(store.logs, OfActionType(Create), OfActionType(Update), OfActionType(Delete));
      map["CREATE" := store.CountByActionType(Create),
          "UPDATE" := store.CountByActionType(Update),
          "DELETE" := store.CountByActionType(Delete)]
    }

    /**
     * `getActorStatistics`: `groupingBy(getActorName, counting())`, which
     * throws on an entry without an actor; otherwise one count per actor,
     * adding up to the total.
     */
    function GetActorStatistics(): (r: Result<map<string, nat>>)
      reads store
      ensures r.Err? <==> exists i :: 0 <= i < |store.logs| && store.logs[i].actorName.None?
      ensures r.Err? ==> r.error == NullArgument
      ensures r.Ok? ==> r.value.Keys == Actors(store.logs)
      ensures r.Ok? ==> forall a :: a in r.value ==> r.value[a] == store.CountByActorName(Some(a))
      ensures r.Ok? ==> MapSum(r.value) == |store.logs|
    {
      ActorStatistics(store.logs)
    }

    /** `cleanupOldLogs(retentionDays)`: deletes the entries older than the retention window. */
    method CleanupOldLogs(retentionDays: int, now: Time) returns (r: Result<nat>)
      requires store.Valid()
      modifies store`logs
      ensures store.Valid()
      ensures !store.available ==> r.Err? && store.logs == old(store.logs)
      ensures store.available ==> r.Ok? && store.logs == Filter(old(store.logs), AtOrAfter(now - retentionDays * DAY))
      ensures store.available ==> |old(store.logs)| == |store.logs| + r.value
      ensures store.available ==> r.value == Count(old(store.logs), Before(now - retentionDays * DAY))
    {
      r := store.DeleteByTimestampBefore(MinusDays(now, retentionDays));
    }

    /** `getLogById`: the entry, or an error when no entry has that id. */
    function GetLogById(id: nat): (r: Result<AuditLog>)
      reads store
      ensures r.Err? <==> forall i :: 0 <= i < |store.logs| ==> store.logs[i].id != Some(id)
      ensures r.Err? ==> r.error == NotFound
      ensures r.Ok? ==> r.value in store.logs && r.value.id == Some(id)
    {
      match store.FindById(id)
      case Some(e) => Ok(e)
      case None => Err(NotFound)
    }
  }

  /** Cleanup keeps an entry exactly on the cutoff. */
  lemma CleanupKeepsBoundary(logs: seq<AuditLog>, e: AuditLog, retentionDays: int, now: Time)
    requires e in logs && e.timestamp == now - retentionDays * DAY
    ensures e in Filter(logs, AtOrAfter(MinusDays(now, retentionDays)))
    ensures e !in Filter(logs, Before(MinusDays(now, retentionDays)))
  {
  }
}
