/**
 Concurrent handlers over the shared stores. A handler is a sequence of single dependency calls;
 a run is any sequence of handler starts, handler steps with any outcome, and expiries of the
 Redis set. What holds in every run, what holds when handlers of one event do not overlap, and
 what overlapping handlers can break.
 */
module Interleaving {
  import opened Decimal
  import opened EventLog
  import opened FeedCache
  import opened Model
  import opened Pipeline
  import opened PostIndex
  import opened Wrappers

  /** The next dependency call of a handler. */
  datatype Phase =
    | ReadCache
    | ReadLog
    | Refill
    | Judge
    | Routing
    | Fallback
    | MarkLog(failure: Option<Failure>)
    | MarkCache
    | Skipped
    | Finished

  datatype Worker = Worker(who: Entry, event: Event, phase: Phase) {

    predicate Live() {
      !phase.Skipped? && !phase.Finished?
    }
  }

  /** `applied` and `writes` are history: the ids routed successfully, and the writes that took effect. */
  datatype System = System(
    index: Index,
    events: Store,
    workers: seq<Worker>,
    applied: set<string>,
    writes: seq<Write>
  )

  const INITIAL := System(map[], Store(map[], {}), [], {}, [])

  datatype Step = Start(who: Entry, event: Event) | Act(w: nat, env: Env) | Expire

  function Moved(sys: System, w: nat, phase: Phase): System
    requires w < |sys.workers|
  {
    sys.(workers := sys.workers[w := sys.workers[w].(phase := phase)])
  }

  /** A successful route: the write, if any, and the history of it. */
  function RoutedTo(sys: System, w: nat, write: Option<Write>): System
    requires w < |sys.workers|
  {
    var e := sys.workers[w].event;
    Moved(sys, w, MarkLog(None)).(
      index := Written(sys.index, write),
      applied := sys.applied + {e.id},
      writes := if write.Some? then sys.writes + [write.value] else sys.writes)
  }

  function Acted(sys: System, w: nat, env: Env): System
    requires w < |sys.workers|
  {
    var Worker(who, e, phase) := sys.workers[w];
    match phase
    case ReadCache =>
      Moved(sys, w, if env.lookup.cacheReadOk && e.id in sys.events.cache then Skipped else ReadLog)
    case ReadLog =>
      Moved(sys, w, if !env.lookup.logReadOk then Finished else if sys.events.Processed(e.id) then Refill else Judge)
    case Refill =>
      Moved(sys, w, Skipped).(
        events := if env.lookup.refillOk then sys.events.(cache := sys.events.cache + {e.id}) else sys.events)
    case Judge =>
      Moved(sys, w, if Check(e).Allowed() then Routing else MarkLog(Some(GdprDenied(Check(e)))))
    case Routing =>
      if e.etype.PostUpdated? && env.execOk && e.payload.postUid !in sys.index then Moved(sys, w, Fallback)
      else
        (match Route(who, sys.index, e, env)
         case RouteError => Moved(sys, w, MarkLog(Some(RouteFailed)))
         case RouteOk(write) => RoutedTo(sys, w, write))
    case Fallback =>
      if env.fallbackOk && Storable(e) then RoutedTo(sys, w, Some(Create(e, env.now)))
      else Moved(sys, w, MarkLog(Some(RouteFailed)))
    case MarkLog(failure) =>
      if !env.mark.logWriteOk then Moved(sys, w, Finished)
      else
        Moved(sys, w, if failure.None? then MarkCache else Finished).(
          events := sys.events.(log := LogWritten(sys.events.log, e, failure)))
    case MarkCache =>
      Moved(sys, w, Finished).(
        events := if env.mark.cacheWriteOk then sys.events.(cache := sys.events.cache + {e.id}) else sys.events)
    case Skipped => sys
    case Finished => sys
  }

  function Next(sys: System, step: Step): System {
    match step
    case Start(who, e) =>
      if Malformed(who, e) then sys else sys.(workers := sys.workers + [Worker(who, e, ReadCache)])
    case Act(w, env) => if w < |sys.workers| then Acted(sys, w, env) else sys
    case Expire => sys.(events := sys.events.(cache := {}))
  }

  function Exec(sys: System, steps: seq<Step>): System {
    if steps == [] then sys else Next(Exec(sys, steps[..|steps| - 1]), steps[|steps| - 1])
  }

  /** What one call does to the log, the cache and the phase, whatever its outcome. */
  ghost predicate Call(sys: System, next: System, w: nat)
    requires w < |sys.workers|
  {
    && |next.workers| == |sys.workers|
    && sys.applied <= next.applied
    && var p, q, e := sys.workers[w].phase, next.workers[w].phase, sys.workers[w].event;
       && next.workers == sys.workers[w := sys.workers[w].(phase := q)]
       && (next.events == sys.events || p.Refill? || p.MarkLog? || p.MarkCache?)
       && match p
          case ReadCache => q.ReadLog? || (q.Skipped? && e.id in sys.events.cache)
          case ReadLog => q.Finished? || (if sys.events.Processed(e.id) then q.Refill? else q.Judge?)
          case Refill => q.Skipped? && CacheAdds(sys.events, next.events, e.id)
          case Judge => q.Routing? || (q.MarkLog? && q.failure.Some?)
          case Routing => q.Fallback? || (q.MarkLog? && (q.failure.None? ==> e.id in next.applied))
          case Fallback => q.MarkLog? && (q.failure.None? ==> e.id in next.applied)
          case MarkLog(f) =>
            || (q.Finished? && next.events == sys.events)
            || (next.events == Store(LogWritten(sys.events.log, e, f), sys.events.cache)
                && q == if f.None? then MarkCache else Finished)
          case MarkCache => q.Finished? && CacheAdds(sys.events, next.events, e.id)
          case Skipped => q.Skipped?
          case Finished => q.Finished?
  }

  predicate CacheAdds(s: Store, t: Store, id: string) {
    t.log == s.log && (t.cache == s.cache || t.cache == s.cache + {id})
  }

  lemma ActIsCall(sys: System, w: nat, env: Env)
    requires w < |sys.workers|
    ensures Call(sys, Acted(sys, w, env), w)
  {
  }

  // ---- A handler on its own does what one run of the pipeline does ----

  /** k calls of handler w in a row. */
  function Solo(sys: System, w: nat, env: Env, k: nat): System
    requires w < |sys.workers|
    decreases k
  {
    if k == 0 then sys
    else
      ActIsCall(sys, w, env);
      Solo(Acted(sys, w, env), w, env, k - 1)
  }

  lemma {:induction false} SoloIdle(sys: System, w: nat, env: Env, k: nat)
    requires w < |sys.workers| && !sys.workers[w].Live()
    ensures Solo(sys, w, env, k) == sys
    decreases k
  {
    if k > 0 {
      SoloIdle(sys, w, env, k - 1);
    }
  }

  lemma SoloMark(sys: System, w: nat, env: Env, k: nat)
    requires w < |sys.workers| && sys.workers[w].phase.MarkLog? && k >= 2
    ensures var t, e := Solo(sys, w, env, k), sys.workers[w].event;
            t.index == sys.index && t.events == Marked(sys.events, e, sys.workers[w].phase.failure, env.mark)
  {
    var once := Acted(sys, w, env);
    if once.workers[w].phase.MarkCache? {
      SoloIdle(Acted(once, w, env), w, env, k - 2);
    } else {
      SoloIdle(once, w, env, k - 1);
    }
  }

  lemma SoloRoute(sys: System, w: nat, env: Env, k: nat)
    requires w < |sys.workers| && sys.workers[w].phase.Routing? && k >= 4
    ensures var t, e := Solo(sys, w, env, k), sys.workers[w].event;
            match Route(sys.workers[w].who, sys.index, e, env)
            case RouteError => t.index == sys.index && t.events == Marked(sys.events, e, Some(RouteFailed), env.mark)
            case RouteOk(write) => t.index == Written(sys.index, write) && t.events == Marked(sys.events, e, None, env.mark)
  {
    var once := Acted(sys, w, env);
    if once.workers[w].phase.Fallback? {
      SoloMark(Acted(once, w, env), w, env, k - 2);
    } else {
      SoloMark(once, w, env, k - 1);
    }
  }

  lemma SoloJudge(sys: System, w: nat, env: Env, k: nat)
    requires w < |sys.workers| && sys.workers[w].phase.Judge? && k >= 5
    ensures var t, Worker(who, e, _) := Solo(sys, w, env, k), sys.workers[w];
            if !Check(e).Allowed() then
              t.index == sys.index && t.events == Marked(sys.events, e, Some(GdprDenied(Check(e))), env.mark)
            else
              match Route(who, sys.index, e, env)
              case RouteError => t.index == sys.index && t.events == Marked(sys.events, e, Some(RouteFailed), env.mark)
              case RouteOk(write) => t.index == Written(sys.index, write) && t.events == Marked(sys.events, e, None, env.mark)
  {
    var once := Acted(sys, w, env);
    if Check(sys.workers[w].event).Allowed() {
      SoloRoute(once, w, env, k - 1);
    } else {
      SoloMark(once, w, env, k - 1);
    }
  }

  /** Uninterrupted, with the same answers, a handler leaves the index and the log that `Run` leaves. */
  lemma SoloIsRun(sys: System, w: nat, env: Env, audit: seq<AuditRow>, feeds: Feeds)
    requires w < |sys.workers| && sys.workers[w].phase.ReadCache?
    requires !Malformed(sys.workers[w].who, sys.workers[w].event)
    ensures var t := Solo(sys, w, env, 7);
            var r := Run(sys.workers[w].who, State(sys.index, sys.events, audit, feeds), sys.workers[w].event, env);
            t.index == r.index && t.events == r.events
  {
    var e := sys.workers[w].event;
    var once := Acted(sys, w, env);
    if once.workers[w].phase.Skipped? {
      SoloIdle(once, w, env, 6);
    } else {
      var twice := Acted(once, w, env);
      if twice.workers[w].phase.Finished? {
        SoloIdle(twice, w, env, 5);
      } else if twice.workers[w].phase.Refill? {
        SoloIdle(Acted(twice, w, env), w, env, 4);
      } else {
        SoloJudge(twice, w, env, 5);
      }
    }
  }

  // ---- In every run: nothing is skipped before it was applied ----

  predicate ClaimsApplied(p: Phase) {
    p.Refill? || p.Skipped? || p.MarkCache? || p == MarkLog(None)
  }

  ghost predicate OnlyAppliedIsMarked(sys: System) {
    && (forall id :: id in sys.events.cache ==> id in sys.applied)
    && (forall id :: sys.events.Processed(id) ==> id in sys.applied)
    && (forall w :: w in sys.workers && ClaimsApplied(w.phase) ==> w.event.id in sys.applied)
  }

  lemma OnlyAppliedCall(sys: System, next: System, w: nat)
    requires OnlyAppliedIsMarked(sys) && w < |sys.workers| && Call(sys, next, w)
    ensures OnlyAppliedIsMarked(next)
  {
    assert sys.workers[w] in sys.workers;
    WorkersKept(sys, next, w);
  }

  lemma OnlyAppliedStep(sys: System, step: Step)
    requires OnlyAppliedIsMarked(sys)
    ensures OnlyAppliedIsMarked(Next(sys, step))
  {
    if step.Act? && step.w < |sys.workers| {
      ActIsCall(sys, step.w, step.env);
      OnlyAppliedCall(sys, Acted(sys, step.w, step.env), step.w);
    }
  }

  /**
   Under every interleaving, expiry and failure: an id in the Redis set or marked processed in
   the table was routed successfully, and so was every event whose handler was told to skip it.
   */
  lemma {:induction false} NothingSkippedUnapplied(steps: seq<Step>)
    ensures OnlyAppliedIsMarked(Exec(INITIAL, steps))
  {
    if steps != [] {
      NothingSkippedUnapplied(steps[..|steps| - 1]);
      OnlyAppliedStep(Exec(INITIAL, steps[..|steps| - 1]), steps[|steps| - 1]);
    }
  }

  // ---- In every run: the index holds compliant content only ----

  predicate CompliantColumns(c: Compliance) {
    !c.category.Tier1? && (c.category.Tier3? || c.userConsent)
  }

  /** The row shows what one of the writes to its own post brought. */
  predicate FromSource(uid: int64, row: Row, writes: seq<Write>) {
    exists w :: w in writes && w.Writer() && w.Uid() == uid && ContentOf(w.event) == row.content
  }

  predicate CompliantSource(e: Event) {
    (e.etype.PostCreated? || e.etype.PostUpdated?) && Check(e).Allowed() && Compliant(e)
  }

  predicate PastVerdict(p: Phase) {
    p.Routing? || p.Fallback?
  }

  ghost predicate CompliantRows(idx: Index, writes: seq<Write>) {
    forall uid :: uid in idx ==> CompliantColumns(idx[uid].compliance) && FromSource(uid, idx[uid], writes)
  }

  ghost predicate CompliantIndex(sys: System) {
    && CompliantRows(sys.index, sys.writes)
    && (forall w :: w in sys.writes && w.Writer() ==> CompliantSource(w.event))
    && (forall w :: w in sys.workers && PastVerdict(w.phase) ==> Check(w.event).Allowed())
    && (forall w :: w in sys.workers && w.phase.Fallback? ==> w.event.etype.PostUpdated?)
  }

  lemma WriteKeepsCompliance(idx: Index, writes: seq<Write>, w: Write)
    requires CompliantRows(idx, writes) && (w.Writer() ==> CompliantSource(w.event))
    ensures CompliantRows(IndexAfter(idx, w), writes + [w])
  {
    var after, more := IndexAfter(idx, w), writes + [w];
    forall uid | uid in after
      ensures CompliantColumns(after[uid].compliance) && FromSource(uid, after[uid], more)
    {
      assert Lookup(after, uid) == Some(after[uid]);
      if uid == w.Uid() && w.Writer() {
        assert w in more && ContentOf(w.event) == after[uid].content;
      } else {
        assert uid != w.Uid() ==> Lookup(idx, uid) == Some(after[uid]);
        assert after[uid].content == idx[uid].content;
        var v :| v in writes && v.Writer() && v.Uid() == uid && ContentOf(v.event) == idx[uid].content;
        assert v in more;
      }
    }
  }

  lemma CompliantRoute(sys: System, w: nat, write: Option<Write>)
    requires w < |sys.workers| && CompliantIndex(sys)
    requires write.Some? && write.value.Writer() ==>
               write.value.event == sys.workers[w].event && CompliantSource(write.value.event)
    ensures CompliantIndex(RoutedTo(sys, w, write))
  {
    var next := RoutedTo(sys, w, write);
    if write.Some? {
      WriteKeepsCompliance(sys.index, sys.writes, write.value);
    }
    WorkersKept(sys, next, w);
  }

  /** A worker of the next state is the moved one or an old one. */
  lemma WorkersKept(sys: System, next: System, w: nat)
    requires w < |sys.workers| == |next.workers|
    requires forall i :: 0 <= i < |sys.workers| && i != w ==> next.workers[i] == sys.workers[i]
    ensures forall v :: v in next.workers ==> v == next.workers[w] || v in sys.workers
  {
    forall v | v in next.workers
      ensures v == next.workers[w] || v in sys.workers
    {
      var i :| 0 <= i < |next.workers| && next.workers[i] == v;
      assert i != w ==> sys.workers[i] == v;
    }
  }

  lemma CompliantStep(sys: System, step: Step)
    requires CompliantIndex(sys)
    ensures CompliantIndex(Next(sys, step))
  {
    match step
    case Start(_, _) =>
    case Expire =>
    case Act(w, env) =>
      if w < |sys.workers| {
        assert sys.workers[w] in sys.workers;
        if PastVerdict(sys.workers[w].phase) {
          CompliantRouting(sys, w, env);
        } else {
          CompliantCall(sys, w, env);
        }
      }
  }

  /** The calls that touch neither the index nor what a handler may route. */
  lemma CompliantCall(sys: System, w: nat, env: Env)
    requires w < |sys.workers| && CompliantIndex(sys) && !PastVerdict(sys.workers[w].phase)
    ensures CompliantIndex(Acted(sys, w, env))
  {
    var next := Acted(sys, w, env);
    assert next.index == sys.index && next.writes == sys.writes;
    WorkersKept(sys, next, w);
  }

  lemma CompliantMove(sys: System, w: nat, phase: Phase)
    requires w < |sys.workers| && CompliantIndex(sys)
    requires PastVerdict(phase) ==> Check(sys.workers[w].event).Allowed()
    requires phase.Fallback? ==> sys.workers[w].event.etype.PostUpdated?
    ensures CompliantIndex(Moved(sys, w, phase))
  {
    WorkersKept(sys, Moved(sys, w, phase), w);
  }

  lemma CompliantRouting(sys: System, w: nat, env: Env)
    requires w < |sys.workers| && CompliantIndex(sys) && PastVerdict(sys.workers[w].phase)
    ensures CompliantIndex(Acted(sys, w, env))
  {
    var Worker(who, e, phase) := sys.workers[w];
    assert sys.workers[w] in sys.workers;
    AllowedContentIsCompliant(e);
    var next := Acted(sys, w, env);
    if phase.Fallback? && env.fallbackOk && Storable(e) {
      CompliantRoute(sys, w, Some(Create(e, env.now)));
    } else if phase.Routing? && next != Moved(sys, w, Fallback) && Route(who, sys.index, e, env).RouteOk? {
      RouteWrites(who, sys.index, e, env);
      CompliantRoute(sys, w, Route(who, sys.index, e, env).write);
    } else {
      CompliantMove(sys, w, next.workers[w].phase);
    }
  }

  lemma RouteWrites(who: Entry, idx: Index, e: Event, env: Env)
    requires Route(who, idx, e, env).RouteOk?
    ensures var w := Route(who, idx, e, env).write;
            w.Some? && w.value.Writer() ==> w.value.event == e && (e.etype.PostCreated? || e.etype.PostUpdated?)
  {
  }

  lemma AllowedContentIsCompliant(e: Event)
    ensures !CarriesNoContent(e.etype) && Check(e).Allowed() ==> Compliant(e)
  {
    if !CarriesNoContent(e.etype) {
      CheckAllowsExactly(e);
    }
  }

  /**
   In every reachable state no row is TIER_1, every row is TIER_3 or has consent, and what a row
   shows came from an allowed event of its own post that is TIER_3 or was globally visible with consent.
   */
  lemma {:induction false} IndexStaysCompliant(steps: seq<Step>)
    ensures CompliantIndex(Exec(INITIAL, steps))
  {
    if steps != [] {
      IndexStaysCompliant(steps[..|steps| - 1]);
      CompliantStep(Exec(INITIAL, steps[..|steps| - 1]), steps[|steps| - 1]);
    }
  }

  // ---- In every run: the index is the fold of its writes ----

  lemma FoldMore(ws: seq<Write>, w: Write)
    ensures Fold(map[], ws + [w]) == IndexAfter(Fold(map[], ws), w)
  {
    assert (ws + [w])[..|ws|] == ws;
  }

  /** A step leaves index and writes alone, or adds to both one write that the database takes. */
  predicate OneWrite(sys: System, next: System) {
    || (next.index == sys.index && next.writes == sys.writes)
    || (next.writes != [] &&
        var w := next.writes[|next.writes| - 1];
        && next.writes == sys.writes + [w] && next.index == IndexAfter(sys.index, w)
        && (w.Writer() ==> Storable(w.event)))
  }

  lemma RoutedWrites(sys: System, w: nat, write: Option<Write>)
    requires w < |sys.workers| && (write.Some? && write.value.Writer() ==> Storable(write.value.event))
    ensures OneWrite(sys, RoutedTo(sys, w, write))
  {
  }

  lemma RouteFits(who: Entry, idx: Index, e: Event, env: Env)
    requires Route(who, idx, e, env).RouteOk?
    ensures var w := Route(who, idx, e, env).write;
            w.Some? && w.value.Writer() ==> Storable(w.value.event)
  {
  }

  lemma ActWrites(sys: System, w: nat, env: Env)
    requires w < |sys.workers|
    ensures OneWrite(sys, Acted(sys, w, env))
  {
    var Worker(who, e, phase) := sys.workers[w];
    var next := Acted(sys, w, env);
    if next == Moved(sys, w, next.workers[w].phase) || !PastVerdict(phase) {
      assert next.index == sys.index && next.writes == sys.writes;
    } else if phase.Fallback? {
      RoutedWrites(sys, w, Some(Create(e, env.now)));
    } else {
      RouteFits(who, sys.index, e, env);
      RoutedWrites(sys, w, Route(who, sys.index, e, env).write);
    }
  }

  lemma StepWrites(sys: System, step: Step)
    ensures OneWrite(sys, Next(sys, step))
  {
    if step.Act? && step.w < |sys.workers| {
      ActWrites(sys, step.w, step.env);
    }
  }

  lemma FoldedStep(sys: System, step: Step)
    requires sys.index == Fold(map[], sys.writes)
    ensures Next(sys, step).index == Fold(map[], Next(sys, step).writes)
  {
    var next := Next(sys, step);
    StepWrites(sys, step);
    if next.writes != sys.writes {
      FoldMore(sys.writes, next.writes[|next.writes| - 1]);
    }
  }

  lemma {:induction false} IndexIsFolded(steps: seq<Step>)
    ensures var sys := Exec(INITIAL, steps); sys.index == Fold(map[], sys.writes)
  {
    if steps != [] {
      IndexIsFolded(steps[..|steps| - 1]);
      FoldedStep(Exec(INITIAL, steps[..|steps| - 1]), steps[|steps| - 1]);
    }
  }

  lemma LastDeleteExists(ws: seq<Write>) returns (d: int)
    ensures LastDelete(ws, d)
  {
    d := |ws| - 1;
    while d >= 0 && !ws[d].Delete?
      invariant -1 <= d < |ws| && forall i :: d < i < |ws| ==> !ws[i].Delete?
      decreases d
    {
      d := d - 1;
    }
  }

  /** In every reachable state every row has the closed form of the writes to its post, and no other post has a row. */
  lemma ReachableRowsAreClosed(steps: seq<Step>, uid: int64) returns (d: int)
    ensures var sys := Exec(INITIAL, steps);
            var ws := ForPost(sys.writes, uid);
            && LastDelete(ws, d)
            && (uid in sys.index <==> WrittenSince(ws, d))
            && (uid in sys.index ==> ClosedFrom(ws, d, sys.index[uid]))
  {
    var sys := Exec(INITIAL, steps);
    var ws := ForPost(sys.writes, uid);
    d := LastDeleteExists(ws);
    IndexIsFolded(steps);
    FoldPerPost(map[], sys.writes, uid);
    ClosedForm(ws, d);
    assert Lookup(sys.index, uid) == RowFold(None, ws);
    if uid in sys.index {
      ClosedFormApplies(ws, d);
    }
  }

  // ---- In every run: no row holds a value the database refuses ----

  ghost predicate WritesFit(sys: System) {
    forall w :: w in sys.writes && w.Writer() ==> Storable(w.event)
  }

  lemma FittingStep(sys: System, step: Step)
    requires WritesFit(sys)
    ensures WritesFit(Next(sys, step))
  {
    StepWrites(sys, step);
  }

  lemma {:induction false} OnlyFittingWrites(steps: seq<Step>)
    ensures WritesFit(Exec(INITIAL, steps))
  {
    if steps != [] {
      OnlyFittingWrites(steps[..|steps| - 1]);
      FittingStep(Exec(INITIAL, steps[..|steps| - 1]), steps[|steps| - 1]);
    }
  }

  /** In every reachable state every row is one the columns can hold: UTF-8 without NUL, within their widths. */
  lemma ReachableRowsFit(steps: seq<Step>, uid: int64)
    ensures var idx := Exec(INITIAL, steps).index;
            uid in idx ==> ContentFits(idx[uid].content)
  {
    var sys := Exec(INITIAL, steps);
    IndexStaysCompliant(steps);
    OnlyFittingWrites(steps);
    if uid in sys.index {
      assert FromSource(uid, sys.index[uid], sys.writes);
      var w :| w in sys.writes && w.Writer() && w.Uid() == uid && ContentOf(w.event) == sys.index[uid].content;
      assert Storable(w.event);
    }
  }

  // ---- Without overlap: the cache refines the table ----

  /** No handler of an event starts while another one of that event is at work. */
  predicate Admitted(sys: System, step: Step) {
    step.Start? ==> forall w :: w in sys.workers && w.Live() ==> w.event.id != step.event.id
  }

  predicate Serial(steps: seq<Step>) {
    forall n :: 0 <= n < |steps| ==> Admitted(Exec(INITIAL, steps[..n]), steps[n])
  }

  predicate PastLookup(p: Phase) {
    p.Judge? || p.Routing? || p.Fallback? || p.MarkLog?
  }

  ghost predicate CacheRefinesLog(sys: System) {
    && sys.events.Refines()
    && (forall i, j :: 0 <= i < j < |sys.workers| && sys.workers[i].Live() && sys.workers[j].Live() ==>
          sys.workers[i].event.id != sys.workers[j].event.id)
    && (forall i :: 0 <= i < |sys.workers| && PastLookup(sys.workers[i].phase) ==>
          !sys.events.Processed(sys.workers[i].event.id))
    && (forall i :: 0 <= i < |sys.workers| && (sys.workers[i].phase.Refill? || sys.workers[i].phase.MarkCache?) ==>
          sys.events.Processed(sys.workers[i].event.id))
  }

  /** The answer IsProcessed gives in this step, if it gives one. */
  function AnswerIn(sys: System, step: Step): Option<bool> {
    if step.Act? && step.w < |sys.workers| then
      var next := Next(sys, step).workers[step.w].phase;
      var phase := sys.workers[step.w].phase;
      if phase.ReadCache? && next.Skipped? then Some(true)
      else if phase.ReadLog? && next.Refill? then Some(true)
      else if phase.ReadLog? && next.Judge? then Some(false)
      else None
    else None
  }

  lemma SerialCall(sys: System, next: System, w: nat)
    requires CacheRefinesLog(sys) && w < |sys.workers| && Call(sys, next, w)
    ensures CacheRefinesLog(next)
    ensures forall id :: sys.events.Processed(id) ==> next.events.Processed(id)
  {
    var e := sys.workers[w].event;
    assert forall id :: id != e.id ==> (next.events.Processed(id) <==> sys.events.Processed(id));
  }

  /** While the cache refines the table, every answer is the table's. */
  lemma AnswersAreRight(sys: System, step: Step)
    requires sys.events.Refines()
    ensures AnswerIn(sys, step).Some? ==>
              AnswerIn(sys, step).value == sys.events.Processed(sys.workers[step.w].event.id)
  {
    if step.Act? && step.w < |sys.workers| {
      ActIsCall(sys, step.w, step.env);
    }
  }

  lemma SerialStep(sys: System, step: Step)
    requires CacheRefinesLog(sys) && Admitted(sys, step)
    ensures CacheRefinesLog(Next(sys, step))
    ensures forall id :: sys.events.Processed(id) ==> Next(sys, step).events.Processed(id)
    ensures AnswerIn(sys, step).Some? ==>
              AnswerIn(sys, step).value == sys.events.Processed(sys.workers[step.w].event.id)
  {
    AnswersAreRight(sys, step);
    match step
    case Start(_, _) =>
      assert forall i :: 0 <= i < |sys.workers| ==> sys.workers[i] in sys.workers;
    case Act(w, env) =>
      if w < |sys.workers| {
        ActIsCall(sys, w, env);
        SerialCall(sys, Acted(sys, w, env), w);
      }
    case Expire =>
  }

  /** The promises of a run up to its n-th step. */
  ghost predicate KeptAt(steps: seq<Step>, n: nat)
    requires n < |steps|
  {
    var here := Exec(INITIAL, steps[..n]);
    var next := Exec(INITIAL, steps[..n + 1]);
    && here.events.Refines() && next.events.Refines()
    && (forall id :: here.events.Processed(id) ==> next.events.Processed(id))
    && (AnswerIn(here, steps[n]).Some? ==>
          AnswerIn(here, steps[n]).value == here.events.Processed(here.workers[steps[n].w].event.id))
  }

  /** A run keeps its promises if all but its last step do and the last one does. */
  lemma KeptSoFar(steps: seq<Step>)
    requires steps != []
    requires var last := |steps| - 1;
             var prev := steps[..last];
             var here, next := Exec(INITIAL, prev), Exec(INITIAL, steps);
             && (forall n :: 0 <= n < last ==> KeptAt(prev, n))
             && here.events.Refines() && next.events.Refines()
             && (forall id :: here.events.Processed(id) ==> next.events.Processed(id))
             && (AnswerIn(here, steps[last]).Some? ==>
                   AnswerIn(here, steps[last]).value == here.events.Processed(here.workers[steps[last].w].event.id))
    ensures forall n :: 0 <= n < |steps| ==> KeptAt(steps, n)
  {
    var last := |steps| - 1;
    var prev := steps[..last];
    assert steps[..last + 1] == steps;
    forall n | 0 <= n < |steps|
      ensures KeptAt(steps, n)
    {
      if n < last {
        assert KeptAt(prev, n);
        assert prev[..n] == steps[..n] && prev[..n + 1] == steps[..n + 1] && prev[n] == steps[n];
      }
    }
  }

  /**
   In a run without overlap, at every step: the Redis set lies within the processed ids of the
   table, no processed event is un-processed, and every answer is the one the table would give.
   */
  lemma {:induction false} SerialRunsRefine(steps: seq<Step>)
    requires Serial(steps)
    ensures CacheRefinesLog(Exec(INITIAL, steps))
    ensures forall n :: 0 <= n < |steps| ==> KeptAt(steps, n)
  {
    if steps != [] {
      var last := |steps| - 1;
      var prev := steps[..last];
      assert forall n :: 0 <= n <= last ==> prev[..n] == steps[..n];
      SerialRunsRefine(prev);
      SerialStep(Exec(INITIAL, prev), steps[last]);
      KeptSoFar(steps);
    }
  }

  // ---- With overlap: a processed event can be un-processed ----

  const STORES_DOWN := ALL_UP.(execOk := false, stats := QueryFailed, tagOk := false)

  /** Routing this event makes a call that can fail. */
  predicate Fallible(who: Entry, e: Event) {
    match e.etype
    case PostCreated => true
    case PostUpdated => true
    case PostDeleted => true
    case PostStatsUpdated => true
    case TagCreated => who.Handler?
    case TagUpdated => who.Handler?
    case TagDeleted => who.Handler?
    case TagStatsUpdated => who.Handler? && e.payload.tagPostCount.Some?
    case OtherType(_) => false
    case Missing => false
  }

  lemma MarkSucceeds(sys: System, i: nat)
    requires i < |sys.workers| && sys.workers[i].phase == MarkLog(None)
    ensures var id := sys.workers[i].event.id;
            var mid := Acted(Acted(sys, i, ALL_UP), i, ALL_UP);
            && |mid.workers| == |sys.workers|
            && (forall j :: 0 <= j < |sys.workers| && j != i ==> mid.workers[j] == sys.workers[j])
            && mid.events.Processed(id) && id in mid.events.cache
  {
    var once := Acted(sys, i, ALL_UP);
    assert once.workers[i].phase == MarkCache && once.workers[i].event == sys.workers[i].event;
  }

  lemma RouteFails(sys: System, j: nat)
    requires j < |sys.workers| && sys.workers[j].phase == Routing && Fallible(sys.workers[j].who, sys.workers[j].event)
    ensures Acted(sys, j, STORES_DOWN) == Moved(sys, j, MarkLog(Some(RouteFailed)))
  {
  }

  lemma MarkFails(sys: System, j: nat)
    requires j < |sys.workers| && sys.workers[j].phase == MarkLog(Some(RouteFailed))
    ensures var id := sys.workers[j].event.id;
            var end := Acted(sys, j, ALL_UP);
            !end.events.Processed(id) && end.events.cache == sys.events.cache
  {
  }

  /** From any state in which one handler of an event has routed it and another is about to. */
  lemma OverlapUnprocesses(sys: System, i: nat, j: nat)
    requires i < |sys.workers| && j < |sys.workers| && i != j
    requires sys.workers[i].event.id == sys.workers[j].event.id
    requires sys.workers[i].phase == MarkLog(None) && sys.workers[j].phase == Routing
    requires Fallible(sys.workers[j].who, sys.workers[j].event)
    ensures var id := sys.workers[i].event.id;
            var mid := Exec(sys, [Act(i, ALL_UP), Act(i, ALL_UP)]);
            var end := Exec(mid, [Act(j, STORES_DOWN), Act(j, ALL_UP)]);
            && mid.events.Processed(id) && id in mid.events.cache
            && !end.events.Processed(id) && id in end.events.cache
  {
    var mid := TwoActs(sys, i, ALL_UP, ALL_UP);
    MarkSucceeds(sys, i);
    var end := TwoActs(mid, j, STORES_DOWN, ALL_UP);
    RouteFails(mid, j);
    MarkFails(Moved(mid, j, MarkLog(Some(RouteFailed))), j);
  }

  lemma TwoActs(sys: System, w: nat, first: Env, second: Env) returns (after: System)
    requires w < |sys.workers|
    ensures after == Exec(sys, [Act(w, first), Act(w, second)]) == Acted(Acted(sys, w, first), w, second)
  {
    after := TwoSteps(sys, Act(w, first), Act(w, second));
    ActIsCall(sys, w, first);
  }

  lemma TwoSteps(sys: System, a: Step, b: Step) returns (after: System)
    ensures after == Exec(sys, [a, b]) == Next(Next(sys, a), b)
  {
    after := Exec(sys, [a, b]);
    assert [a, b][..1] == [a] && [a][..0] == [];
    assert Exec(sys, [a]) == Next(sys, a);
  }

  lemma {:induction false} ExecConcat(sys: System, a: seq<Step>, b: seq<Step>)
    ensures Exec(sys, a + b) == Exec(Exec(sys, a), b)
  {
    if b == [] {
      assert a + b == a;
    } else {
      assert (a + b)[..|a + b| - 1] == a + b[..|b| - 1];
      ExecConcat(sys, a, b[..|b| - 1]);
    }
  }

  // ---- Which events stay processed however their handlers overlap ----

  /** What a handler is started for. */
  datatype Job = Job(who: Entry, event: Event)

  predicate Proper(j: Job) {
    !Malformed(j.who, j.event)
  }

  predicate CanPass(j: Job) {
    Check(j.event).Allowed() && Routable(j.who, j.event)
  }

  predicate CanFail(j: Job) {
    !Check(j.event).Allowed() || Fallible(j.who, j.event)
  }

  /** `a` can get the id processed, `b` can get it refused. */
  predicate Contend(a: Job, b: Job) {
    Proper(a) && Proper(b) && a.event.id == b.event.id && CanPass(a) && CanFail(b)
  }

  predicate Contended(jobs: set<Job>) {
    exists a, b :: a in jobs && b in jobs && Contend(a, b)
  }

  /** Handlers are started for these jobs only, each as often and as close together as may be. */
  ghost predicate Draws(jobs: set<Job>, steps: seq<Step>) {
    forall n :: 0 <= n < |steps| && steps[n].Start? ==> Job(steps[n].who, steps[n].event) in jobs
  }

  /** Every such run keeps, at every step, what runs without overlap keep. */
  ghost predicate Stable(jobs: set<Job>) {
    forall steps, n :: Draws(jobs, steps) && 0 <= n < |steps| ==> KeptAt(steps, n)
  }

  predicate PassKnown(jobs: set<Job>, id: string) {
    exists j :: j in jobs && Proper(j) && CanPass(j) && j.event.id == id
  }

  predicate InOrder(jobs: set<Job>, events: Store, w: Worker) {
    var j := Job(w.who, w.event);
    && j in jobs && Proper(j)
    && (PastVerdict(w.phase) ==> Check(w.event).Allowed())
    && (w.phase.Fallback? ==> w.event.etype.PostUpdated?)
    && (w.phase == MarkLog(None) ==> CanPass(j))
    && (w.phase.MarkLog? && w.phase.failure.Some? ==> CanFail(j))
    && (w.phase.Refill? || w.phase.MarkCache? ==> events.Processed(w.event.id))
  }

  ghost predicate Orderly(jobs: set<Job>, sys: System) {
    && sys.events.Refines()
    && (forall id :: sys.events.Processed(id) ==> PassKnown(jobs, id))
    && (forall w :: w in sys.workers ==> InOrder(jobs, sys.events, w))
  }

  /** A handler is refused only where its event is denied or its route can fail, and passes only where it can succeed. */
  lemma ActRefuses(sys: System, w: nat, env: Env)
    requires w < |sys.workers|
    requires sys.workers[w].phase.Fallback? ==> sys.workers[w].event.etype.PostUpdated?
    ensures var Worker(who, e, p) := sys.workers[w];
            var q := Acted(sys, w, env).workers[w].phase;
            && (p.Judge? && !q.MarkLog? ==> Check(e).Allowed())
            && (p.Judge? && q.MarkLog? ==> !Check(e).Allowed())
            && (PastVerdict(p) && q.MarkLog? ==> if q.failure.Some? then Fallible(who, e) else Routable(who, e))
            && (p.Routing? && q.Fallback? ==> e.etype.PostUpdated?)
  {
  }

  /** The worker that moved is still in order. */
  lemma MoverInOrder(jobs: set<Job>, sys: System, w: nat, env: Env)
    requires w < |sys.workers| && sys.events.Refines() && InOrder(jobs, sys.events, sys.workers[w])
    ensures InOrder(jobs, Acted(sys, w, env).events, Acted(sys, w, env).workers[w])
  {
    ActIsCall(sys, w, env);
    ActRefuses(sys, w, env);
  }

  /** Without contention a mark never takes back a processed status. */
  lemma EventsInOrder(jobs: set<Job>, sys: System, w: nat, env: Env)
    requires w < |sys.workers| && Orderly(jobs, sys) && !Contended(jobs)
    ensures var next := Acted(sys, w, env).events;
            && next.Refines()
            && (forall id :: sys.events.Processed(id) ==> next.Processed(id))
            && (forall id :: next.Processed(id) ==> PassKnown(jobs, id))
  {
    var who, e, p := sys.workers[w].who, sys.workers[w].event, sys.workers[w].phase;
    var next := Acted(sys, w, env).events;
    ActIsCall(sys, w, env);
    assert InOrder(jobs, sys.events, sys.workers[w]);
    assert forall id :: id != e.id ==> (next.Processed(id) <==> sys.events.Processed(id));
    if p.MarkLog? && p.failure.Some? && sys.events.Processed(e.id) {
      var j :| j in jobs && Proper(j) && CanPass(j) && j.event.id == e.id;
      assert Contend(j, Job(who, e));
      assert false;
    } else if p.MarkLog? && p.failure.None? {
      assert Proper(Job(who, e)) && PassKnown(jobs, e.id);
    }
  }

  lemma OrderlyStep(jobs: set<Job>, sys: System, step: Step)
    requires Orderly(jobs, sys) && !Contended(jobs)
    requires step.Start? ==> Job(step.who, step.event) in jobs
    ensures Orderly(jobs, Next(sys, step))
    ensures forall id :: sys.events.Processed(id) ==> Next(sys, step).events.Processed(id)
  {
    if step.Act? && step.w < |sys.workers| {
      var next := Acted(sys, step.w, step.env);
      ActIsCall(sys, step.w, step.env);
      assert sys.workers[step.w] in sys.workers;
      MoverInOrder(jobs, sys, step.w, step.env);
      EventsInOrder(jobs, sys, step.w, step.env);
      WorkersKept(sys, next, step.w);
    }
  }

  lemma {:induction false} OrderlyRun(jobs: set<Job>, steps: seq<Step>)
    requires Draws(jobs, steps) && !Contended(jobs)
    ensures Orderly(jobs, Exec(INITIAL, steps))
    ensures forall n :: 0 <= n < |steps| ==> KeptAt(steps, n)
  {
    if steps != [] {
      var last := |steps| - 1;
      var prev := steps[..last];
      OrderlyRun(jobs, prev);
      OrderlyStep(jobs, Exec(INITIAL, prev), steps[last]);
      AnswersAreRight(Exec(INITIAL, prev), steps[last]);
      KeptSoFar(steps);
    }
  }

  // ---- Driving one handler while the others wait ----

  lemma OneAct(sys: System, w: nat, env: Env)
    requires w < |sys.workers|
    ensures Exec(sys, [Act(w, env)]) == Acted(sys, w, env)
  {
    assert [Act(w, env)][..0] == [];
  }

  /** The event of this handler has not been processed, and its handler is about to find that out. */
  predicate AtStart(sys: System, w: nat) {
    && w < |sys.workers| && sys.workers[w].phase == ReadCache
    && sys.workers[w].event.id !in sys.events.cache && !sys.events.Processed(sys.workers[w].event.id)
  }

  predicate OnlyActs(steps: seq<Step>) {
    forall n :: 0 <= n < |steps| ==> steps[n].Act?
  }

  /** Up to the verdict on the event. */
  lemma Approach(sys: System, w: nat) returns (steps: seq<Step>)
    requires AtStart(sys, w)
    ensures OnlyActs(steps)
    ensures var e := sys.workers[w].event;
            Exec(sys, steps) == Moved(sys, w, if Check(e).Allowed() then Routing else MarkLog(Some(GdprDenied(Check(e)))))
  {
    var two, one := [Act(w, ALL_UP), Act(w, ALL_UP)], [Act(w, ALL_UP)];
    var mid := TwoActs(sys, w, ALL_UP, ALL_UP);
    assert Acted(sys, w, ALL_UP) == Moved(sys, w, ReadLog);
    MovedTwice(sys, w, ReadLog, Judge);
    assert mid == Moved(sys, w, Judge);
    OneAct(mid, w, ALL_UP);
    MovedTwice(sys, w, Judge, Acted(mid, w, ALL_UP).workers[w].phase);
    ExecConcat(sys, two, one);
    steps := two + one;
  }

  lemma MovedTwice(sys: System, w: nat, p: Phase, q: Phase)
    requires w < |sys.workers|
    ensures Moved(Moved(sys, w, p), w, q) == Moved(sys, w, q)
  {
  }

  /** `next` is `sys` but for the phase of w, the index and the history. */
  predicate OnlyMoved(sys: System, next: System, w: nat, phase: Phase) {
    w < |sys.workers| && next.events == sys.events && next.workers == sys.workers[w := sys.workers[w].(phase := phase)]
  }

  /** With everything up, every routable event passes, if need be by way of the fallback. */
  lemma Pass(sys: System, w: nat) returns (steps: seq<Step>)
    requires w < |sys.workers| && sys.workers[w].phase == Routing
    requires Routable(sys.workers[w].who, sys.workers[w].event)
    ensures OnlyActs(steps)
    ensures OnlyMoved(sys, Exec(sys, steps), w, MarkLog(None))
  {
    var once := Acted(sys, w, ALL_UP);
    if once == Moved(sys, w, Fallback) {
      var twice := TwoActs(sys, w, ALL_UP, ALL_UP);
      assert twice == RoutedTo(once, w, Some(Create(once.workers[w].event, ALL_UP.now)));
      steps := [Act(w, ALL_UP), Act(w, ALL_UP)];
    } else {
      OneAct(sys, w, ALL_UP);
      steps := [Act(w, ALL_UP)];
    }
  }

  /** With the stores down, a route that can fail does; a denied event is refused anyway. */
  lemma Refuse(sys: System, w: nat) returns (steps: seq<Step>, failure: Failure)
    requires AtStart(sys, w) && CanFail(Job(sys.workers[w].who, sys.workers[w].event))
    ensures OnlyActs(steps)
    ensures OnlyMoved(sys, Exec(sys, steps), w, MarkLog(Some(failure)))
  {
    var e := sys.workers[w].event;
    steps := Approach(sys, w);
    failure := GdprDenied(Check(e));
    if Check(e).Allowed() {
      var mid := Exec(sys, steps);
      RouteFails(mid, w);
      MovedTwice(sys, w, Routing, MarkLog(Some(RouteFailed)));
      OneAct(mid, w, STORES_DOWN);
      ExecConcat(sys, steps, [Act(w, STORES_DOWN)]);
      steps := steps + [Act(w, STORES_DOWN)];
      failure := RouteFailed;
    }
  }

  /** Two handlers of one id, started one after the other. */
  lemma TwoStarts(a: Job, b: Job) returns (sys: System)
    requires Proper(a) && Proper(b)
    ensures sys == Exec(INITIAL, [Start(a.who, a.event), Start(b.who, b.event)])
    ensures sys.workers == [Worker(a.who, a.event, ReadCache), Worker(b.who, b.event, ReadCache)]
    ensures AtStart(sys, 0) && AtStart(sys, 1)
  {
    sys := TwoSteps(INITIAL, Start(a.who, a.event), Start(b.who, b.event));
  }

  /** Both start, and then they act as in p, q and r. */
  lemma StartAndAct(a: Job, b: Job, p: seq<Step>, q: seq<Step>, r: seq<Step>) returns (steps: seq<Step>)
    requires Proper(a) && Proper(b) && OnlyActs(p) && OnlyActs(q) && OnlyActs(r)
    ensures Draws({a, b}, steps)
    ensures Exec(INITIAL, steps) == Exec(Exec(Exec(Exec(INITIAL, [Start(a.who, a.event), Start(b.who, b.event)]), p), q), r)
  {
    var starts := [Start(a.who, a.event), Start(b.who, b.event)];
    ExecConcat(INITIAL, starts, p);
    ExecConcat(INITIAL, starts + p, q);
    ExecConcat(INITIAL, starts + p + q, r);
    steps := starts + p + q + r;
  }

  /** Any two handlers of allowed events with one id reach the state in which they undo each other. */
  lemma OverlapIsReachable(a: Job, b: Job) returns (steps: seq<Step>)
    requires Contend(a, b) && Check(b.event).Allowed()
    ensures Draws({a, b}, steps)
    ensures var sys := Exec(INITIAL, steps);
            && |sys.workers| == 2
            && sys.workers[0] == Worker(a.who, a.event, MarkLog(None))
            && sys.workers[1] == Worker(b.who, b.event, Routing)
            && Fallible(b.who, b.event)
  {
    var s0 := TwoStarts(a, b);
    var p := Approach(s0, 1);
    var s1 := Exec(s0, p);
    var q := Approach(s1, 0);
    var s2 := Exec(s1, q);
    var r := Pass(s2, 0);
    steps := StartAndAct(a, b, p, q, r);
  }

  /** `b` is refused, then `a` passes; both have still to write it down. */
  lemma Collision(a: Job, b: Job) returns (steps: seq<Step>, failure: Failure)
    requires Contend(a, b)
    ensures Draws({a, b}, steps)
    ensures var sys := Exec(INITIAL, steps);
            sys.workers == [Worker(a.who, a.event, MarkLog(None)), Worker(b.who, b.event, MarkLog(Some(failure)))]
  {
    var s0 := TwoStarts(a, b);
    var p;
    p, failure := Refuse(s0, 1);
    var s1 := Exec(s0, p);
    var q := Approach(s1, 0);
    var s2 := Exec(s1, q);
    var r := Pass(s2, 0);
    steps := StartAndAct(a, b, p, q, r);
  }

  /** The first writes "processed", the second writes "failed". */
  lemma CollisionUnprocesses(sys: System, a: Job, b: Job, failure: Failure)
    requires sys.workers == [Worker(a.who, a.event, MarkLog(None)), Worker(b.who, b.event, MarkLog(Some(failure)))]
    requires a.event.id == b.event.id
    ensures var mid := Acted(sys, 0, ALL_UP);
            && |mid.workers| == 2 && mid.events.Processed(a.event.id)
            && !Acted(mid, 1, ALL_UP).events.Processed(a.event.id)
  {
    var mid := Acted(sys, 0, ALL_UP);
    assert mid.workers[1] == sys.workers[1];
  }

  lemma NotStable(jobs: set<Job>, a: Job, b: Job)
    requires a in jobs && b in jobs && Contend(a, b)
    ensures !Stable(jobs)
  {
    var before, failure := Collision(a, b);
    var sys := Exec(INITIAL, before);
    var up0, up1 := Act(0, ALL_UP), Act(1, ALL_UP);
    CollisionUnprocesses(sys, a, b, failure);
    OneAct(sys, 0, ALL_UP);
    ExecConcat(INITIAL, before, [up0]);
    var mid := Acted(sys, 0, ALL_UP);
    OneAct(mid, 1, ALL_UP);
    ExecConcat(INITIAL, before + [up0], [up1]);
    var steps := before + [up0] + [up1];
    var n := |before| + 1;
    assert steps[..n] == before + [up0] && steps[..n + 1] == steps;
    assert !KeptAt(steps, n);
    assert Draws(jobs, steps);
  }

  /**
   Whatever handlers are started for these jobs, as often and as overlapping as may be, the Redis
   set lies within the processed ids, no processed event is un-processed and every answer is the
   table's: exactly when no event can pass under an id under which one can be refused.
   */
  lemma StableIff(jobs: set<Job>)
    ensures Stable(jobs) <==> !Contended(jobs)
  {
    if Contended(jobs) {
      var a, b :| a in jobs && b in jobs && Contend(a, b);
      NotStable(jobs, a, b);
    } else {
      forall steps, n | Draws(jobs, steps) && 0 <= n < |steps|
        ensures KeptAt(steps, n)
      {
        OrderlyRun(jobs, steps);
      }
    }
  }

  /** For the handlers of one event: exactly when it is denied or always refused, or its route makes no call that can fail. */
  lemma OneEventStableIff(who: Entry, e: Event)
    requires !Malformed(who, e)
    ensures Stable({Job(who, e)}) <==> !Check(e).Allowed() || !Routable(who, e) || !Fallible(who, e)
  {
    var j := Job(who, e);
    StableIff({j});
    assert Contended({j}) <==> Contend(j, j);
  }
}
