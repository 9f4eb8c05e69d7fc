/**
 The sync pipeline: idempotency check, GDPR check, audit, route, mark, broadcast.
 The HTTP handler and the message consumer run it over the same stores; where they differ, and
 for which events they leave the same state behind, is settled at the end.
 */
module Pipeline {
  import opened Decimal
  import opened EventLog
  import opened FeedCache
  import opened Model
  import opened PostIndex
  import opened Wrappers

  datatype AuditRow = AuditRow(
    eventId: string,
    subject: int64,
    sourceRegion: string,
    targetRegion: string,
    category: DataCategory,
    consent: bool,
    decision: Decision,
    visibility: Visibility
  )

  function AuditOf(e: Event): AuditRow {
    AuditRow(e.id, e.payload.authorUid, e.sourceRegion, e.targetRegion, e.metadata.category,
             e.metadata.userConsent, Check(e), e.payload.visibility)
  }

  predicate Audits(row: AuditRow, e: Event, decision: Decision) {
    && row.eventId == e.id && row.subject == e.payload.authorUid
    && row.sourceRegion == e.sourceRegion && row.targetRegion == e.targetRegion
    && row.category == e.metadata.category && row.consent == e.metadata.userConsent
    && row.decision == decision && row.visibility == e.payload.visibility
  }

  lemma AuditsDetermine(rows: seq<AuditRow>, before: seq<AuditRow>, e: Event)
    requires |rows| == |before| + 1 && rows[..|before|] == before && Audits(rows[|before|], e, Check(e))
    ensures rows == before + [AuditOf(e)]
  {
    assert rows == rows[..|before|] + [rows[|before|]];
  }

  /** All stores one cluster shares between its handlers. */
  datatype State = State(index: Index, events: Store, audit: seq<AuditRow>, feeds: Feeds)

  const EMPTY := State(map[], Store(map[], {}), [], map[])

  /** What every dependency answers during one run of the pipeline, and the clock it reads. */
  datatype Env = Env(
    lookup: LookupEnv,
    auditOk: bool,
    execOk: bool,
    fallbackOk: bool,
    stats: StatsAnswer,
    tagOk: bool,
    mark: MarkEnv,
    newPost: NewPostEnv,
    now: Time
  )

  const NO_NEW_POST := NewPostEnv([], None, 0, FollowersFailed, 0.0)

  /** Every dependency works; the clock shows 0. */
  const ALL_UP := Env(LookupEnv(true, true, true), true, true, true, Found(NO_STATS), true, MarkEnv(true, true), NO_NEW_POST, 0)

  datatype Entry = Handler | Consumer

  /** The tag's name fits its column. */
  predicate Taggable(e: Event) {
    Fits(e.payload.tagName, 50)
  }

  datatype Routed = RouteError | RouteOk(write: Option<Write>)

  /** The handler forgives a missing stats row and maintains tags; the consumer does neither. */
  function Route(who: Entry, idx: Index, e: Event, env: Env): Routed {
    match e.etype
    case PostCreated => if env.execOk && Storable(e) then RouteOk(Some(Create(e, env.now))) else RouteError
    case PostUpdated =>
      if env.execOk && Storable(e) && (e.payload.postUid in idx || env.fallbackOk)
      then RouteOk(Some(Update(e, env.now))) else RouteError
    case PostDeleted => if env.execOk then RouteOk(Some(Delete(e.payload.postUid))) else RouteError
    case PostStatsUpdated =>
      (match env.stats
       case QueryFailed => RouteError
       case NoRow => if who.Handler? then RouteOk(None) else RouteError
       case Found(st) => if env.execOk then RouteOk(Some(SetStats(e.payload.postUid, st, env.now))) else RouteError)
    case TagCreated => if who.Consumer? || (env.tagOk && Taggable(e)) then RouteOk(None) else RouteError
    case TagUpdated => if who.Consumer? || (env.tagOk && Taggable(e)) then RouteOk(None) else RouteError
    case TagDeleted => if who.Consumer? || env.tagOk then RouteOk(None) else RouteError
    case TagStatsUpdated =>
      if who.Consumer? || e.payload.tagPostCount.None? || env.tagOk then RouteOk(None) else RouteError
    case OtherType(_) => RouteOk(None)
    case Missing => RouteOk(None)
  }

  /** Nothing in the event itself makes every attempt to route it fail. */
  predicate Routable(who: Entry, e: Event) {
    match e.etype
    case PostCreated => Storable(e)
    case PostUpdated => Storable(e)
    case TagCreated => who.Consumer? || Taggable(e)
    case TagUpdated => who.Consumer? || Taggable(e)
    case _ => true
  }

  /** Some answers of the dependencies let the event be routed, exactly when it is routable. */
  lemma RoutableIff(who: Entry, idx: Index, e: Event)
    ensures (exists env :: Route(who, idx, e, env).RouteOk?) <==> Routable(who, e)
  {
    if Routable(who, e) {
      assert Route(who, idx, e, ALL_UP).RouteOk?;
    }
  }

  // ---- What routing does, type by type ----

  /** The statements that routing makes do not all succeed. */
  predicate Refused(who: Entry, idx: Index, e: Event, env: Env) {
    match e.etype
    case PostCreated => !env.execOk || !Storable(e)
    case PostUpdated => !env.execOk || !Storable(e) || (e.payload.postUid !in idx && !env.fallbackOk)
    case PostDeleted => !env.execOk
    case PostStatsUpdated =>
      env.stats.QueryFailed? || (env.stats.NoRow? && who.Consumer?) || (env.stats.Found? && !env.execOk)
    case TagCreated => who.Handler? && !(env.tagOk && Taggable(e))
    case TagUpdated => who.Handler? && !(env.tagOk && Taggable(e))
    case TagDeleted => who.Handler? && !env.tagOk
    case TagStatsUpdated => who.Handler? && e.payload.tagPostCount.Some? && !env.tagOk
    case OtherType(_) => false
    case Missing => false
  }

  /** The index after a successful routing. */
  ghost predicate RoutedIn(before: Index, after: Index, e: Event, env: Env) {
    match e.etype
    case PostCreated => InsertedInto(before, after, e, env.now)
    case PostUpdated => UpdatedIn(before, after, e, env.now)
    case PostDeleted => after == before - {e.payload.postUid}
    case PostStatsUpdated =>
      if env.stats.Found? then CountedIn(before, after, e.payload.postUid, env.stats.stats, env.now) else after == before
    case _ => after == before
  }

  /** The feeds after a successful routing: only a new post is pushed, once the global feeds are gone. */
  ghost predicate FedIn(before: Feeds, after: Feeds, e: Event, env: Env) {
    if e.etype.PostCreated?
    then forall key :: GetsPost(Invalidated(before, env.newPost.scan), after, e.payload.postUid, env.newPost, key)
    else after == before
  }

  lemma RouteRefuses(who: Entry, idx: Index, e: Event, env: Env)
    ensures Route(who, idx, e, env).RouteError? <==> Refused(who, idx, e, env)
  {
  }

  lemma RouteRoutes(who: Entry, idx: Index, e: Event, env: Env)
    requires Route(who, idx, e, env).RouteOk?
    ensures RoutedIn(idx, Written(idx, Route(who, idx, e, env).write), e, env)
  {
    match e.etype
    case PostCreated => CreateInserts(idx, e, env.now);
    case PostUpdated => UpdateUpdates(idx, e, env.now);
    case PostDeleted => DeleteDeletes(idx, e.payload.postUid);
    case PostStatsUpdated =>
      if env.stats.Found? {
        SetStatsCounts(idx, e.payload.postUid, env.stats.stats, env.now);
      }
    case _ =>
  }

  lemma NewPostFeeds(feeds: Feeds, e: Event, env: Env)
    requires e.etype.PostCreated?
    ensures FedIn(feeds, AfterNewPost(feeds, e.payload.postUid, env.newPost), e, env)
  {
    forall key {
      PushesReach(Invalidated(feeds, env.newPost.scan), e.payload.postUid, env.newPost, key);
    }
  }

  function Written(idx: Index, w: Option<Write>): Index {
    if w.Some? then IndexAfter(idx, w.value) else idx
  }

  datatype Outcome = Invalid | LookupFailed | AlreadyProcessed | Denied | RouteFailure | Applied

  /** Rejected before anything is looked up. */
  predicate Malformed(who: Entry, e: Event) {
    e.id == "" || e.etype.Missing? || (who.Consumer? && e.payload.postUid == 0)
  }

  function OutcomeOf(who: Entry, s: State, e: Event, env: Env): Outcome {
    if Malformed(who, e) then Invalid
    else
      match Answer(s.events, e.id, env.lookup)
      case Err(_) => LookupFailed
      case Ok(processed) =>
        if processed then AlreadyProcessed
        else if !Check(e).Allowed() then Denied
        else if Route(who, s.index, e, env).RouteError? then RouteFailure
        else Applied
  }

  /** The write an applied event makes, if it makes one. */
  function WriteOf(who: Entry, s: State, e: Event, env: Env): Option<Write>
    requires OutcomeOf(who, s, e, env).Applied?
  {
    Route(who, s.index, e, env).write
  }

  function Run(who: Entry, s: State, e: Event, env: Env): State {
    var looked := s.(events := AfterLookup(s.events, e.id, env.lookup));
    var judged := looked.(audit := if env.auditOk then s.audit + [AuditOf(e)] else s.audit);
    match OutcomeOf(who, s, e, env)
    case Invalid => s
    case LookupFailed => looked
    case AlreadyProcessed => looked
    case Denied => judged.(events := Marked(judged.events, e, Some(GdprDenied(Check(e))), env.mark))
    case RouteFailure => judged.(events := Marked(judged.events, e, Some(RouteFailed), env.mark))
    case Applied =>
      judged.(
        index := Written(s.index, WriteOf(who, s, e, env)),
        feeds := if e.etype.PostCreated? then AfterNewPost(s.feeds, e.payload.postUid, env.newPost) else s.feeds,
        events := Marked(judged.events, e, None, env.mark))
  }

  // ---- The services ----

  class AuditLogService {
    var rows: seq<AuditRow>

    constructor ()
      ensures rows == []
    {
      rows := [];
    }

    /** Append-only, column by column. */
    method Log(e: Event, decision: Decision, ok: bool)
      modifies this
      ensures !ok ==> rows == old(rows)
      ensures ok ==> |rows| == |old(rows)| + 1 && rows[..|old(rows)|] == old(rows) && Audits(rows[|old(rows)|], e, decision)
    {
      if ok {
        rows := rows + [AuditRow(e.id, e.payload.authorUid, e.sourceRegion, e.targetRegion, e.metadata.category,
                                 e.metadata.userConsent, decision, e.payload.visibility)];
      }
    }
  }

  class SyncHandler {
    const indexSvc: GlobalIndexService
    const eventLog: SyncEventLogService
    const auditSvc: AuditLogService
    const feedGenerator: FeedGenerator

    function Stores(): State
      reads indexSvc, eventLog, auditSvc, feedGenerator
    {
      State(indexSvc.rows, eventLog.Current(), auditSvc.rows, feedGenerator.feeds)
    }

    constructor (indexSvc: GlobalIndexService, eventLog: SyncEventLogService,
                 auditSvc: AuditLogService, feedGenerator: FeedGenerator)
      ensures this.indexSvc == indexSvc && this.eventLog == eventLog
      ensures this.auditSvc == auditSvc && this.feedGenerator == feedGenerator
    {
      this.indexSvc, this.eventLog, this.auditSvc, this.feedGenerator := indexSvc, eventLog, auditSvc, feedGenerator;
    }

    method RouteEvent(e: Event, env: Env) returns (success: bool)
      modifies indexSvc, feedGenerator
      ensures var routed := Route(Handler, old(indexSvc.rows), e, env);
              && success == routed.RouteOk?
              && indexSvc.rows == (if success then Written(old(indexSvc.rows), routed.write) else old(indexSvc.rows))
              && feedGenerator.feeds == (if success && e.etype.PostCreated?
                                         then AfterNewPost(old(feedGenerator.feeds), e.payload.postUid, env.newPost)
                                         else old(feedGenerator.feeds))
      ensures success <==> !Refused(Handler, old(indexSvc.rows), e, env)
      ensures success ==> RoutedIn(old(indexSvc.rows), indexSvc.rows, e, env)
      ensures success ==> FedIn(old(feedGenerator.feeds), feedGenerator.feeds, e, env)
      ensures !success ==> indexSvc.rows == old(indexSvc.rows) && feedGenerator.feeds == old(feedGenerator.feeds)
    {
      RouteRefuses(Handler, indexSvc.rows, e, env);
      if !Refused(Handler, indexSvc.rows, e, env) {
        RouteRoutes(Handler, indexSvc.rows, e, env);
      }
      if e.etype.PostCreated? {
        NewPostFeeds(feedGenerator.feeds, e, env);
      }
      match e.etype
      case PostCreated =>
        success := indexSvc.InsertPost(e, env.now, env.execOk);
        if success {
          var _ := feedGenerator.HandleNewPost(e.payload.postUid, env.newPost);
        }
      case PostUpdated =>
        success := indexSvc.UpdatePost(e, env.now, env.execOk, env.fallbackOk);
      case PostDeleted =>
        success := indexSvc.DeletePost(e, env.execOk);
      case PostStatsUpdated =>
        success := HandleStatsUpdated(e, env);
      case TagCreated => success := env.tagOk && Taggable(e);
      case TagUpdated => success := env.tagOk && Taggable(e);
      case TagDeleted => success := env.tagOk;
      case TagStatsUpdated => success := e.payload.tagPostCount.None? || env.tagOk;
      case OtherType(_) => success := true;
      case Missing => success := true;
    }

    method HandleStatsUpdated(e: Event, env: Env) returns (success: bool)
      modifies indexSvc
      ensures success == (env.stats.NoRow? || (env.stats.Found? && env.execOk))
      ensures indexSvc.rows ==
              if success && env.stats.Found?
              then IndexAfter(old(indexSvc.rows), SetStats(e.payload.postUid, env.stats.stats, env.now))
              else old(indexSvc.rows)
    {
      match env.stats
      case QueryFailed => success := false;
      case NoRow => success := true;
      case Found(st) => success := indexSvc.UpdateStats(e.payload.postUid, st, env.now, env.execOk);
    }

    /** `broadcast` is whether the event goes on to the peers: applied, and from the local API. */
    method ProcessEvent(e: Event, local: bool, env: Env) returns (success: bool, broadcast: bool)
      modifies indexSvc, eventLog, auditSvc, feedGenerator
      ensures Stores() == Run(Handler, old(Stores()), e, env)
      ensures var o := OutcomeOf(Handler, old(Stores()), e, env);
              && success == (o.AlreadyProcessed? || o.Denied? || o.Applied?)
              && broadcast == (local && o.Applied?)
    {
      if e.id == "" || e.etype.Missing? {
        return false, false;
      }
      var answer := eventLog.IsProcessed(e.id, env.lookup);
      if answer.Err? {
        return false, false;
      }
      if answer.value {
        return true, false;
      }
      var decision := Check(e);
      ghost var audited := auditSvc.rows;
      auditSvc.Log(e, decision, env.auditOk);
      if env.auditOk {
        AuditsDetermine(auditSvc.rows, audited, e);
      }
      if !decision.Allowed() {
        var _ := eventLog.MarkProcessed(e, Some(GdprDenied(decision)), env.mark);
        return true, false;
      }
      var routed := RouteEvent(e, env);
      if !routed {
        var _ := eventLog.MarkProcessed(e, Some(RouteFailed), env.mark);
        return false, false;
      }
      var _ := eventLog.MarkProcessed(e, None, env.mark);
      return true, local;
    }
  }

  class SyncConsumer {
    const indexSvc: GlobalIndexService
    const eventLog: SyncEventLogService
    const auditSvc: AuditLogService
    const feedGenerator: FeedGenerator

    function Stores(): State
      reads indexSvc, eventLog, auditSvc, feedGenerator
    {
      State(indexSvc.rows, eventLog.Current(), auditSvc.rows, feedGenerator.feeds)
    }

    constructor (indexSvc: GlobalIndexService, eventLog: SyncEventLogService,
                 auditSvc: AuditLogService, feedGenerator: FeedGenerator)
      ensures this.indexSvc == indexSvc && this.eventLog == eventLog
      ensures this.auditSvc == auditSvc && this.feedGenerator == feedGenerator
    {
      this.indexSvc, this.eventLog, this.auditSvc, this.feedGenerator := indexSvc, eventLog, auditSvc, feedGenerator;
    }

    method RouteEvent(e: Event, env: Env) returns (success: bool)
      modifies indexSvc, feedGenerator
      ensures var routed := Route(Consumer, old(indexSvc.rows), e, env);
              && success == routed.RouteOk?
              && indexSvc.rows == (if success then Written(old(indexSvc.rows), routed.write) else old(indexSvc.rows))
              && feedGenerator.feeds == (if success && e.etype.PostCreated?
                                         then AfterNewPost(old(feedGenerator.feeds), e.payload.postUid, env.newPost)
                                         else old(feedGenerator.feeds))
      ensures success <==> !Refused(Consumer, old(indexSvc.rows), e, env)
      ensures success ==> RoutedIn(old(indexSvc.rows), indexSvc.rows, e, env)
      ensures success ==> FedIn(old(feedGenerator.feeds), feedGenerator.feeds, e, env)
      ensures !success ==> indexSvc.rows == old(indexSvc.rows) && feedGenerator.feeds == old(feedGenerator.feeds)
    {
      RouteRefuses(Consumer, indexSvc.rows, e, env);
      if !Refused(Consumer, indexSvc.rows, e, env) {
        RouteRoutes(Consumer, indexSvc.rows, e, env);
      }
      if e.etype.PostCreated? {
        NewPostFeeds(feedGenerator.feeds, e, env);
      }
      match e.etype {
        case PostCreated =>
          success := indexSvc.InsertPost(e, env.now, env.execOk);
          if success {
            var _ := feedGenerator.HandleNewPost(e.payload.postUid, env.newPost);
          }
        case PostUpdated =>
          success := indexSvc.UpdatePost(e, env.now, env.execOk, env.fallbackOk);
        case PostDeleted =>
          success := indexSvc.DeletePost(e, env.execOk);
        case PostStatsUpdated =>
          if env.stats.Found? {
            success := indexSvc.UpdateStats(e.payload.postUid, env.stats.stats, env.now, env.execOk);
          } else {
            success := false;
          }
        case _ =>
          success := true;
      }
    }

    /** The message is acknowledged, or asked for again later. */
    method HandleMessage(e: Event, env: Env) returns (ack: bool)
      modifies indexSvc, eventLog, auditSvc, feedGenerator
      ensures Stores() == Run(Consumer, old(Stores()), e, env)
      ensures ack == Acknowledged(OutcomeOf(Consumer, old(Stores()), e, env))
    {
      if e.id == "" || e.etype.Missing? || e.payload.postUid == 0 {
        return false;
      }
      var answer := eventLog.IsProcessed(e.id, env.lookup);
      if answer.Err? {
        return false;
      }
      if answer.value {
        return true;
      }
      var decision := Check(e);
      ghost var audited := auditSvc.rows;
      auditSvc.Log(e, decision, env.auditOk);
      if env.auditOk {
        AuditsDetermine(auditSvc.rows, audited, e);
      }
      if !decision.Allowed() {
        var _ := eventLog.MarkProcessed(e, Some(GdprDenied(decision)), env.mark);
        return true;
      }
      var routed := RouteEvent(e, env);
      if !routed {
        var _ := eventLog.MarkProcessed(e, Some(RouteFailed), env.mark);
        return false;
      }
      var _ := eventLog.MarkProcessed(e, None, env.mark);
      return true;
    }
  }

  predicate Acknowledged(o: Outcome) {
    o.AlreadyProcessed? || o.Denied? || o.Applied?
  }

  // ---- One run, case by case ----

  /** The event gets as far as the GDPR check. */
  predicate Judged(who: Entry, s: State, e: Event, env: Env) {
    && e.id != "" && !e.etype.Missing? && (who.Consumer? ==> e.payload.postUid != 0)
    && !(env.lookup.cacheReadOk && e.id in s.events.cache) && env.lookup.logReadOk
    && !(e.id in s.events.log && s.events.log[e.id].failure.None?)
  }

  /** An event that does not get there leaves everything alone but the cache, which a lookup may refill. */
  lemma RunUnjudged(who: Entry, s: State, e: Event, env: Env)
    requires !Judged(who, s, e, env)
    ensures var t, o := Run(who, s, e, env), OutcomeOf(who, s, e, env);
            && t.index == s.index && t.audit == s.audit && t.feeds == s.feeds
            && (o.Invalid? <==> e.id == "" || e.etype.Missing? || (who.Consumer? && e.payload.postUid == 0))
            && (o.Invalid? ==> t.events == s.events)
            && (!o.Invalid? ==>
                  && (o.AlreadyProcessed? || o.LookupFailed?)
                  && LookedUp(s.events, t.events, e.id, if o.AlreadyProcessed? then Ok(true) else Err(()), env.lookup))
  {
    AnswerIsLookedUp(s.events, e.id, env.lookup);
  }

  /** An event that does is audited, if the row can be inserted. */
  lemma RunAudited(who: Entry, s: State, e: Event, env: Env)
    requires Judged(who, s, e, env)
    ensures var t := Run(who, s, e, env);
            && (!env.auditOk ==> t.audit == s.audit)
            && (env.auditOk ==> |t.audit| == |s.audit| + 1 && t.audit[..|s.audit|] == s.audit && Audits(t.audit[|s.audit|], e, Check(e)))
  {
  }

  /** A denied event is logged as failed, and nothing else happens. */
  lemma RunDenied(who: Entry, s: State, e: Event, env: Env)
    requires Judged(who, s, e, env) && !Check(e).Allowed()
    ensures var t := Run(who, s, e, env);
            && OutcomeOf(who, s, e, env).Denied? && t.index == s.index && t.feeds == s.feeds
            && MarkedIn(s.events, t.events, e, Some(GdprDenied(Check(e))), env.mark)
  {
    MarkedIsMarkedIn(s.events, e, Some(GdprDenied(Check(e))), env.mark);
  }

  /** So is one whose routing fails, which is reported as an error. */
  lemma RunRefused(who: Entry, s: State, e: Event, env: Env)
    requires Judged(who, s, e, env) && Check(e).Allowed() && Refused(who, s.index, e, env)
    ensures var t := Run(who, s, e, env);
            && OutcomeOf(who, s, e, env).RouteFailure? && t.index == s.index && t.feeds == s.feeds
            && MarkedIn(s.events, t.events, e, Some(RouteFailed), env.mark)
  {
    RouteRefuses(who, s.index, e, env);
    MarkedIsMarkedIn(s.events, e, Some(RouteFailed), env.mark);
  }

  /** Any other is applied to index and feeds, and logged as processed. */
  lemma RunApplied(who: Entry, s: State, e: Event, env: Env)
    requires Judged(who, s, e, env) && Check(e).Allowed() && !Refused(who, s.index, e, env)
    ensures var t := Run(who, s, e, env);
            && OutcomeOf(who, s, e, env).Applied? && RoutedIn(s.index, t.index, e, env) && FedIn(s.feeds, t.feeds, e, env)
            && MarkedIn(s.events, t.events, e, None, env.mark)
  {
    PassesWhenNotRefused(who, s, e, env);
    RouteRoutes(who, s.index, e, env);
    AppliedStores(who, s, e, env);
    MarkedIsMarkedIn(s.events, e, None, env.mark);
    if e.etype.PostCreated? {
      NewPostFeeds(s.feeds, e, env);
    }
  }

  lemma PassesWhenNotRefused(who: Entry, s: State, e: Event, env: Env)
    requires Judged(who, s, e, env) && Check(e).Allowed() && !Refused(who, s.index, e, env)
    ensures OutcomeOf(who, s, e, env).Applied? && Route(who, s.index, e, env).RouteOk?
  {
    RouteRefuses(who, s.index, e, env);
  }

  lemma AppliedStores(who: Entry, s: State, e: Event, env: Env)
    requires Judged(who, s, e, env) && OutcomeOf(who, s, e, env).Applied?
    ensures var t := Run(who, s, e, env);
            && t.index == Written(s.index, Route(who, s.index, e, env).write)
            && t.feeds == (if e.etype.PostCreated? then AfterNewPost(s.feeds, e.payload.postUid, env.newPost) else s.feeds)
            && t.events == Marked(s.events, e, None, env.mark)
  {
  }

  /** What the cache is for: with table and Redis up, an applied event is known even when the table is down next time. */
  lemma AppliedIsCached(who: Entry, s: State, e: Event, env: Env)
    requires OutcomeOf(who, s, e, env).Applied? && env.mark.logWriteOk && env.mark.cacheWriteOk
    ensures Answer(Run(who, s, e, env).events, e.id, LookupEnv(true, false, false)) == Ok(true)
  {
  }

  // ---- One run keeps what the log promises ----

  /** No single run makes the cache claim more than the table; what becomes processed is what was applied. */
  lemma RunKeepsLog(who: Entry, s: State, e: Event, env: Env)
    requires s.events.Refines()
    ensures Run(who, s, e, env).events.Refines()
    ensures forall id :: Run(who, s, e, env).events.Processed(id) <==>
                           s.events.Processed(id) || (id == e.id && OutcomeOf(who, s, e, env).Applied? && env.mark.logWriteOk)
  {
    var looked := AfterLookup(s.events, e.id, env.lookup);
    LookupKeeps(s.events, e.id, env.lookup);
    match OutcomeOf(who, s, e, env)
    case Denied => MarkKeeps(looked, e, Some(GdprDenied(Check(e))), env.mark);
    case RouteFailure => MarkKeeps(looked, e, Some(RouteFailed), env.mark);
    case Applied => MarkKeeps(looked, e, None, env.mark);
    case _ =>
  }

  /** Whatever the cache claims: a run takes no status back, and applies only what is not processed. */
  lemma RunKeepsProcessed(who: Entry, s: State, e: Event, env: Env)
    ensures forall id :: s.events.Processed(id) ==> Run(who, s, e, env).events.Processed(id)
    ensures OutcomeOf(who, s, e, env).Applied? ==>
              !s.events.Processed(e.id) && (env.mark.logWriteOk ==> Run(who, s, e, env).events.Processed(e.id))
  {
  }

  /** The audit log only grows, and only by the decision taken on this event. */
  lemma RunAudits(who: Entry, s: State, e: Event, env: Env)
    ensures var o := OutcomeOf(who, s, e, env);
            Run(who, s, e, env).audit ==
            s.audit + (if env.auditOk && (o.Denied? || o.RouteFailure? || o.Applied?) then [AuditOf(e)] else [])
  {
  }

  // ---- Where handler and consumer agree ----

  /** Both entries leave the same stores behind, whatever the stores held and whatever failed. */
  ghost predicate Agree(e: Event) {
    forall s: State, env: Env :: Run(Handler, s, e, env) == Run(Consumer, s, e, env)
  }

  /** Known before the call: what the event is, not what happens to it. */
  predicate Uniform(e: Event) {
    || e.id == "" || e.etype.Missing?
    || (e.payload.postUid != 0 &&
        match e.etype
        case PostCreated => true
        case PostUpdated => true
        case PostDeleted => true
        case PostStatsUpdated => !Check(e).Allowed()
        case TagCreated => false
        case TagUpdated => false
        case TagDeleted => false
        case TagStatsUpdated => e.payload.tagPostCount.None?
        case OtherType(_) => true
        case Missing => true)
  }

  /** Every store works, but the tag index refuses and the Regional DB does not know the post. */
  const TAGS_DOWN := ALL_UP.(stats := NoRow, tagOk := false)

  lemma PipelinesAgreeIff(e: Event)
    ensures Agree(e) <==> Uniform(e)
  {
    if Uniform(e) {
      forall s: State, env: Env
        ensures Run(Handler, s, e, env) == Run(Consumer, s, e, env)
      {
        UniformAgrees(s, e, env);
      }
    } else {
      NonUniformDiffers(e);
    }
  }

  lemma UniformAgrees(s: State, e: Event, env: Env)
    requires Uniform(e)
    ensures Run(Handler, s, e, env) == Run(Consumer, s, e, env)
  {
    assert OutcomeOf(Handler, s, e, env) == OutcomeOf(Consumer, s, e, env);
  }

  lemma NonUniformDiffers(e: Event)
    requires !Uniform(e)
    ensures Run(Handler, EMPTY, e, TAGS_DOWN) != Run(Consumer, EMPTY, e, TAGS_DOWN)
  {
    var h, c := Run(Handler, EMPTY, e, TAGS_DOWN), Run(Consumer, EMPTY, e, TAGS_DOWN);
    assert Answer(EMPTY.events, e.id, TAGS_DOWN.lookup) == Ok(false);
    if e.payload.postUid == 0 {
      assert h.audit == [AuditOf(e)] && c.audit == [];
    } else if e.etype.PostStatsUpdated? {
      assert h.events.Processed(e.id) && !c.events.Processed(e.id);
    } else {
      assert !h.events.Processed(e.id) && c.events.Processed(e.id);
    }
  }
}
