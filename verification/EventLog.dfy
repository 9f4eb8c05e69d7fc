/** The event log that makes processing idempotent, and the Redis set that speeds it up. */
module EventLog {
  import opened Model
  import opened Wrappers

  /** Why an event was not processed: the error message column. */
  datatype Failure = GdprDenied(decision: Decision) | RouteFailed

  /** `failure` is None exactly when the status column says 'processed'. */
  datatype LogRow = LogRow(etype: EventType, sourceRegion: string, failure: Option<Failure>)

  type Log = map<string, LogRow>

  /** The sync_event_log table and the Redis set, whose TTL drops it as a whole. */
  datatype Store = Store(log: Log, cache: set<string>) {

    predicate Processed(id: string) {
      id in log && log[id].failure.None?
    }

    /** Redis never claims more than the table. */
    predicate Refines() {
      forall id :: id in cache ==> Processed(id)
    }
  }

  /** Whether Redis answers, the table answers, and Redis accepts the write-back. */
  datatype LookupEnv = LookupEnv(cacheReadOk: bool, logReadOk: bool, refillOk: bool)

  function Answer(s: Store, id: string, env: LookupEnv): Result<bool, ()> {
    if env.cacheReadOk && id in s.cache then Ok(true)
    else if !env.logReadOk then Err(())
    else Ok(s.Processed(id))
  }

  function AfterLookup(s: Store, id: string, env: LookupEnv): Store {
    var fromTable := !(env.cacheReadOk && id in s.cache) && env.logReadOk;
    if fromTable && s.Processed(id) && env.refillOk then s.(cache := s.cache + {id}) else s
  }

  /** On conflict the type and region columns keep their first values. */
  function LogWritten(log: Log, e: Event, failure: Option<Failure>): Log {
    log[e.id := if e.id in log then log[e.id].(failure := failure) else LogRow(e.etype, e.sourceRegion, failure)]
  }

  datatype MarkEnv = MarkEnv(logWriteOk: bool, cacheWriteOk: bool)

  function Marked(s: Store, e: Event, failure: Option<Failure>, env: MarkEnv): Store {
    if !env.logWriteOk then s
    else Store(LogWritten(s.log, e, failure),
               if failure.None? && env.cacheWriteOk then s.cache + {e.id} else s.cache)
  }

  /** A lookup leaves the table alone, and caches no more than the table says. */
  lemma LookupKeeps(s: Store, id: string, env: LookupEnv)
    requires s.Refines()
    ensures var after := AfterLookup(s, id, env);
            after.Refines() && after.log == s.log && after.cache <= s.cache + {id}
  {
  }

  /** A mark moves the status of its own event only. */
  lemma MarkKeeps(s: Store, e: Event, failure: Option<Failure>, env: MarkEnv)
    requires s.Refines() && (failure.Some? ==> !s.Processed(e.id))
    ensures var after := Marked(s, e, failure, env);
            && after.Refines()
            && (forall id :: after.Processed(id) <==>
                  s.Processed(id) || (id == e.id && failure.None? && env.logWriteOk))
  {
  }

  /** A lookup, case by case: the cache answers, the table cannot be read, the table answers. */
  predicate LookedUp(before: Store, after: Store, id: string, r: Result<bool, ()>, env: LookupEnv) {
    && after.log == before.log
    && if env.cacheReadOk && id in before.cache then r == Ok(true) && after.cache == before.cache
       else if !env.logReadOk then r == Err(()) && after.cache == before.cache
       else if id in before.log && before.log[id].failure.None?
       then r == Ok(true) && after.cache == (if env.refillOk then before.cache + {id} else before.cache)
       else r == Ok(false) && after.cache == before.cache
  }

  /** A mark, column by column. */
  predicate MarkedIn(before: Store, after: Store, e: Event, failure: Option<Failure>, env: MarkEnv) {
    && after.cache == (if failure.None? && env.logWriteOk && env.cacheWriteOk then before.cache + {e.id} else before.cache)
    && after.log - {e.id} == before.log - {e.id}
    && if !env.logWriteOk then after.log == before.log
       else
         && e.id in after.log && after.log[e.id].failure == failure
         && after.log[e.id].etype == (if e.id in before.log then before.log[e.id].etype else e.etype)
         && after.log[e.id].sourceRegion == (if e.id in before.log then before.log[e.id].sourceRegion else e.sourceRegion)
  }

  lemma AnswerIsLookedUp(s: Store, id: string, env: LookupEnv)
    ensures LookedUp(s, AfterLookup(s, id, env), id, Answer(s, id, env), env)
  {
  }

  lemma MarkedIsMarkedIn(s: Store, e: Event, failure: Option<Failure>, env: MarkEnv)
    ensures MarkedIn(s, Marked(s, e, failure, env), e, failure, env)
  {
  }

  class SyncEventLogService {
    var log: Log
    var cache: set<string>

    function Current(): Store
      reads this
    {
      Store(log, cache)
    }

    constructor ()
      ensures Current() == Store(map[], {})
    {
      log, cache := map[], {};
    }

    /** With a cache that refines the table, every answer is the one the table would give. */
    method IsProcessed(id: string, env: LookupEnv) returns (r: Result<bool, ()>)
      modifies this
      ensures r == Answer(old(Current()), id, env)
      ensures Current() == AfterLookup(old(Current()), id, env)
      ensures LookedUp(old(Current()), Current(), id, r, env)
      ensures old(Current().Refines()) ==> Current().Refines() && (r.Ok? ==> r.value == Current().Processed(id))
    {
      if env.cacheReadOk && id in cache {
        return Ok(true);
      }
      if !env.logReadOk {
        return Err(());
      }
      var found := id in log && log[id].failure.None?;
      if found && env.refillOk {
        cache := cache + {id};
      }
      return Ok(found);
    }

    /** Only a success reaches the cache, and only once the table has it. */
    method MarkProcessed(e: Event, failure: Option<Failure>, env: MarkEnv) returns (success: bool)
      modifies this
      ensures success == (env.logWriteOk && (failure.Some? || env.cacheWriteOk))
      ensures Current() == Marked(old(Current()), e, failure, env)
      ensures MarkedIn(old(Current()), Current(), e, failure, env)
      ensures old(Current().Refines()) && (failure.Some? ==> e.id !in old(cache)) ==> Current().Refines()
    {
      if !env.logWriteOk {
        return false;
      }
      if e.id in log {
        log := log[e.id := log[e.id].(failure := failure)];
      } else {
        log := log[e.id := LogRow(e.etype, e.sourceRegion, failure)];
      }
      if failure.None? {
        if env.cacheWriteOk {
          cache := cache + {e.id};
        }
        return env.cacheWriteOk;
      }
      return true;
    }
  }
}
