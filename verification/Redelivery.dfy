/**
 Batches of messages, redelivered until they are acknowledged. The callback stops at the first
 message that asks for a retry, so earlier messages are seen again: the event log makes each
 allowed event count once.
 */
module Redelivery {
  import opened Decimal
  import opened EventLog
  import opened Model
  import opened Pipeline
  import opened PostIndex
  import opened Seqs
  import Utf8
  import opened Wrappers

  function Batch(s: State, msgs: seq<Event>, envs: seq<Env>): (State, bool)
    requires |envs| == |msgs|
    decreases |msgs|
  {
    if msgs == [] then (s, true)
    else
      var next := Run(Consumer, s, msgs[0], envs[0]);
      if Acknowledged(OutcomeOf(Consumer, s, msgs[0], envs[0])) then Batch(next, msgs[1..], envs[1..])
      else (next, false)
  }

  /** The callback given to the message queue; `envs[i]` is what the dependencies answer to message i. */
  method ConsumeBatch(c: SyncConsumer, msgs: seq<Event>, envs: seq<Env>) returns (ack: bool)
    requires |envs| == |msgs|
    modifies c.indexSvc, c.eventLog, c.auditSvc, c.feedGenerator
    ensures (c.Stores(), ack) == Batch(old(c.Stores()), msgs, envs)
  {
    for i := 0 to |msgs|
      invariant Batch(c.Stores(), msgs[i..], envs[i..]) == Batch(old(c.Stores()), msgs, envs)
    {
      assert msgs[i..][1..] == msgs[i + 1..] && envs[i..][1..] == envs[i + 1..];
      var ok := c.HandleMessage(msgs[i], envs[i]);
      if !ok {
        return false;
      }
    }
    return true;
  }

  predicate Rounds(msgs: seq<Event>, rounds: seq<seq<Env>>) {
    forall i :: 0 <= i < |rounds| ==> |rounds[i]| == |msgs|
  }

  /** Delivery after delivery of the same batch, until one is acknowledged. */
  function Redeliver(s: State, msgs: seq<Event>, rounds: seq<seq<Env>>): (State, bool)
    requires Rounds(msgs, rounds)
    decreases |rounds|
  {
    if rounds == [] then (s, false)
    else
      var (next, ack) := Batch(s, msgs, rounds[0]);
      if ack then (next, true) else Redeliver(next, msgs, rounds[1..])
  }

  // ---- What each batch should amount to ----

  function ProcessedIds(s: Store): set<string> {
    set id | id in s.log && s.Processed(id)
  }

  /** The first allowed message of each id not yet done, in batch order. */
  function Expected(msgs: seq<Event>, done: set<string>): seq<Event> {
    if msgs == [] then []
    else if msgs[0].id in done || !Check(msgs[0]).Allowed() then Expected(msgs[1..], done)
    else [msgs[0]] + Expected(msgs[1..], done + {msgs[0].id})
  }

  function Ids(es: seq<Event>): set<string> {
    set i | 0 <= i < |es| :: es[i].id
  }

  /** `w` is the write of routing `e` once, at some clock and with some stats. */
  predicate RoutesTo(e: Event, w: Option<Write>) {
    match e.etype
    case PostCreated => w.Some? && w.value.Create? && w.value.event == e
    case PostUpdated => w.Some? && w.value.Update? && w.value.event == e
    case PostDeleted => w == Some(Delete(e.payload.postUid))
    case PostStatsUpdated => w.Some? && w.value.SetStats? && w.value.postUid == e.payload.postUid
    case _ => w.None?
  }

  predicate RouteAll(es: seq<Event>, ws: seq<Option<Write>>) {
    |ws| == |es| && forall i :: 0 <= i < |es| ==> RoutesTo(es[i], ws[i])
  }

  function WrittenAll(idx: Index, ws: seq<Option<Write>>): Index
    decreases |ws|
  {
    if ws == [] then idx else WrittenAll(Written(idx, ws[0]), ws[1..])
  }

  // ---- What was handled, and which records of it were lost ----

  /** One call of HandleMessage. */
  datatype Call = Call(event: Event, env: Env)

  function Step(s: State, c: Call): State {
    Run(Consumer, s, c.event, c.env)
  }

  predicate Applies(s: State, c: Call) {
    OutcomeOf(Consumer, s, c.event, c.env).Applied?
  }

  predicate Acks(s: State, c: Call) {
    Acknowledged(OutcomeOf(Consumer, s, c.event, c.env))
  }

  function Trail(s: State, calls: seq<Call>): State
    decreases |calls|
  {
    if calls == [] then s else Trail(Step(s, calls[0]), calls[1..])
  }

  /** The calls one delivery comes to. */
  function Calls(s: State, msgs: seq<Event>, envs: seq<Env>): (calls: seq<Call>)
    requires |envs| == |msgs|
    decreases |msgs|
  {
    if msgs == [] then []
    else
      var c := Call(msgs[0], envs[0]);
      [c] + (if Acks(s, c) then Calls(Step(s, c), msgs[1..], envs[1..]) else [])
  }

  /** The calls of all deliveries, until the batch is acknowledged. */
  function AllCalls(s: State, msgs: seq<Event>, rounds: seq<seq<Env>>): seq<Call>
    requires Rounds(msgs, rounds)
    decreases |rounds|
  {
    if rounds == [] then []
    else
      var (next, ack) := Batch(s, msgs, rounds[0]);
      Calls(s, msgs, rounds[0]) + (if ack then [] else AllCalls(next, msgs, rounds[1..]))
  }

  /** The ids in `lost`, and those that `c` routes without getting the log row written. */
  function LostWith(s: State, lost: set<string>, c: Call): set<string> {
    if Applies(s, c) && !c.env.mark.logWriteOk then lost + {c.event.id} else lost
  }

  function LostAfter(s: State, lost: set<string>, calls: seq<Call>): set<string>
    decreases |calls|
  {
    if calls == [] then lost else LostAfter(Step(s, calls[0]), LostWith(s, lost, calls[0]), calls[1..])
  }

  /** No allowed event is met again whose routing was not recorded: other log writes may fail. */
  predicate NoLostMark(s: State, lost: set<string>, calls: seq<Call>)
    decreases |calls|
  {
    calls == [] ||
    (var c := calls[0];
     && !(c.event.id in lost && Check(c.event).Allowed())
     && NoLostMark(Step(s, c), LostWith(s, lost, c), calls[1..]))
  }

  /** No id is routed twice, and none of those in `seen` again. */
  predicate AppliedOnce(s: State, seen: set<string>, calls: seq<Call>)
    decreases |calls|
  {
    calls == [] ||
    (var c := calls[0];
     && !(Applies(s, c) && c.event.id in seen)
     && AppliedOnce(Step(s, c), if Applies(s, c) then seen + {c.event.id} else seen, calls[1..]))
  }

  lemma {:induction false} SplitLost(s: State, lost: set<string>, a: seq<Call>, b: seq<Call>)
    ensures Trail(s, a + b) == Trail(Trail(s, a), b)
    ensures LostAfter(s, lost, a + b) == LostAfter(Trail(s, a), LostAfter(s, lost, a), b)
    ensures NoLostMark(s, lost, a + b) <==> NoLostMark(s, lost, a) && NoLostMark(Trail(s, a), LostAfter(s, lost, a), b)
    decreases |a|
  {
    if a == [] {
      assert a + b == b;
    } else {
      assert (a + b)[1..] == a[1..] + b;
      SplitLost(Step(s, a[0]), LostWith(s, lost, a[0]), a[1..], b);
    }
  }

  lemma {:induction false} CallsTrail(s: State, msgs: seq<Event>, envs: seq<Env>)
    requires |envs| == |msgs|
    ensures Trail(s, Calls(s, msgs, envs)) == Batch(s, msgs, envs).0
    decreases |msgs|
  {
    if msgs != [] {
      var c := Call(msgs[0], envs[0]);
      assert Calls(s, msgs, envs)[1..] == if Acks(s, c) then Calls(Step(s, c), msgs[1..], envs[1..]) else [];
      CallsTrail(Step(s, c), msgs[1..], envs[1..]);
    }
  }

  predicate WellFormed(msgs: seq<Event>) {
    forall i :: 0 <= i < |msgs| ==> !Malformed(Consumer, msgs[i])
  }

  // ---- One delivery applies the next stretch of what is expected ----

  /** What is done: recorded as processed, or routed without a record. */
  function Done(s: State, lost: set<string>): set<string> {
    ProcessedIds(s.events) + lost
  }

  /** One message: either it is routed and done, or the index and what is done stay as they were. */
  lemma MessageEffect(s: State, lost: set<string>, c: Call)
    requires s.events.Refines() && (c.event.id in lost ==> !Check(c.event).Allowed())
    ensures var o := OutcomeOf(Consumer, s, c.event, c.env);
            var next := Step(s, c);
            var done := Done(s, lost);
            && next.events.Refines()
            && (o.Applied? ==>
                  && c.event.id !in done && Check(c.event).Allowed()
                  && Done(next, LostWith(s, lost, c)) == done + {c.event.id}
                  && RoutesTo(c.event, WriteOf(Consumer, s, c.event, c.env))
                  && next.index == Written(s.index, WriteOf(Consumer, s, c.event, c.env)))
            && (!o.Applied? ==> Done(next, LostWith(s, lost, c)) == done && next.index == s.index)
            && (o.AlreadyProcessed? || o.Denied? ==> c.event.id in done || !Check(c.event).Allowed())
  {
    RunKeepsLog(Consumer, s, c.event, c.env);
    StepDone(s, lost, c);
  }

  lemma StepDone(s: State, lost: set<string>, c: Call)
    requires s.events.Refines()
    ensures Done(Step(s, c), LostWith(s, lost, c)) == Done(s, lost) + (if Applies(s, c) then {c.event.id} else {})
  {
    RunKeepsLog(Consumer, s, c.event, c.env);
    var next := Step(s, c);
    var added := if Applies(s, c) && c.env.mark.logWriteOk then {c.event.id} else {};
    assert forall id :: id in next.events.log && next.events.Processed(id) <==> next.events.Processed(id);
    assert forall id :: id in ProcessedIds(next.events) <==> id in ProcessedIds(s.events) + added;
    assert ProcessedIds(next.events) == ProcessedIds(s.events) + added;
  }

  /** From `s` to `after` exactly the first |ws| expected events were routed, as `ws`. */
  ghost predicate Delivered(s: State, lost: set<string>, after: State, lost': set<string>, msgs: seq<Event>, ws: seq<Option<Write>>) {
    var expected := Expected(msgs, Done(s, lost));
    && |ws| <= |expected| && RouteAll(expected[..|ws|], ws)
    && after.index == WrittenAll(s.index, ws)
    && after.events.Refines()
    && Done(after, lost') == Done(s, lost) + Ids(expected[..|ws|])
  }

  lemma DeliveredNothing(s: State, lost: set<string>, after: State, lost': set<string>, msgs: seq<Event>)
    requires after.index == s.index && after.events.Refines() && Done(after, lost') == Done(s, lost)
    ensures Delivered(s, lost, after, lost', msgs, [])
  {
    assert Expected(msgs, Done(s, lost))[..0] == [];
  }

  /** A message that is routed, and then the rest of the batch. */
  lemma DeliveredCons(s: State, lost: set<string>, next: State, lost1: set<string>, after: State, lost': set<string>,
                      msgs: seq<Event>, w: Option<Write>, rest: seq<Option<Write>>)
    requires msgs != [] && msgs[0].id !in Done(s, lost) && Check(msgs[0]).Allowed() && RoutesTo(msgs[0], w)
    requires next.index == Written(s.index, w) && Done(next, lost1) == Done(s, lost) + {msgs[0].id}
    requires Delivered(next, lost1, after, lost', msgs[1..], rest)
    ensures Delivered(s, lost, after, lost', msgs, [w] + rest)
  {
    var e, ws := msgs[0], [w] + rest;
    var tail := Expected(msgs[1..], Done(next, lost1));
    assert Expected(msgs, Done(s, lost)) == [e] + tail;
    assert ([e] + tail)[..|ws|] == [e] + tail[..|rest|];
    assert ws[1..] == rest;
    IdsCons(e, tail[..|rest|]);
  }

  lemma {:induction false} BatchEffect(s: State, lost: set<string>, msgs: seq<Event>, envs: seq<Env>)
    returns (ws: seq<Option<Write>>)
    requires |envs| == |msgs| && s.events.Refines() && NoLostMark(s, lost, Calls(s, msgs, envs))
    ensures var (after, ack) := Batch(s, msgs, envs);
            && Delivered(s, lost, after, LostAfter(s, lost, Calls(s, msgs, envs)), msgs, ws)
            && (ack ==> |ws| == |Expected(msgs, Done(s, lost))|)
    decreases |msgs|
  {
    ws := [];
    var calls := Calls(s, msgs, envs);
    var after := Batch(s, msgs, envs).0;
    if msgs == [] {
      DeliveredNothing(s, lost, after, lost, msgs);
    } else {
      var c := calls[0];
      var next, lost1 := Step(s, c), LostWith(s, lost, c);
      MessageEffect(s, lost, c);
      if Acks(s, c) {
        assert calls[1..] == Calls(next, msgs[1..], envs[1..]);
        ws := BatchEffect(next, lost1, msgs[1..], envs[1..]);
        if Applies(s, c) {
          DeliveredCons(s, lost, next, lost1, after, LostAfter(s, lost, calls), msgs, WriteOf(Consumer, s, c.event, c.env), ws);
          ws := [WriteOf(Consumer, s, c.event, c.env)] + ws;
        }
      } else {
        assert calls[1..] == [];
        DeliveredNothing(s, lost, after, lost1, msgs);
      }
    }
  }

  lemma IdsCons(e: Event, es: seq<Event>)
    ensures Ids([e] + es) == {e.id} + Ids(es)
  {
    var all := [e] + es;
    forall id | id in {e.id} + Ids(es)
      ensures id in Ids(all)
    {
      if id != e.id {
        var i :| 0 <= i < |es| && es[i].id == id;
        assert all[i + 1].id == id;
      } else {
        assert all[0].id == id;
      }
    }
  }

  /** Once a stretch is done, what is expected is the remainder. */
  lemma {:induction false} ExpectedShrinks(msgs: seq<Event>, done: set<string>, n: nat)
    requires n <= |Expected(msgs, done)|
    ensures Expected(msgs, done + Ids(Expected(msgs, done)[..n])) == Expected(msgs, done)[n..]
  {
    var all := Expected(msgs, done);
    if msgs == [] {
    } else if msgs[0].id in done || !Check(msgs[0]).Allowed() {
      ExpectedShrinks(msgs[1..], done, n);
    } else if n == 0 {
      assert all[..0] == [] && done + Ids([]) == done;
    } else {
      var e := msgs[0];
      var tail := Expected(msgs[1..], done + {e.id});
      ExpectedShrinks(msgs[1..], done + {e.id}, n - 1);
      assert all[..n] == [e] + tail[..n - 1];
      IdsCons(e, tail[..n - 1]);
      assert done + Ids(all[..n]) == done + {e.id} + Ids(tail[..n - 1]);
    }
  }

  lemma {:induction false} WrittenAllConcat(idx: Index, a: seq<Option<Write>>, b: seq<Option<Write>>)
    ensures WrittenAll(idx, a + b) == WrittenAll(WrittenAll(idx, a), b)
    decreases |a|
  {
    if a == [] {
      assert a + b == b;
    } else {
      assert (a + b)[1..] == a[1..] + b;
      WrittenAllConcat(Written(idx, a[0]), a[1..], b);
    }
  }

  /** Two stretches of the same list, one after the other. */
  lemma StretchConcat(expected: seq<Event>, vs: seq<Option<Write>>, ws: seq<Option<Write>>)
    requires |vs| + |ws| <= |expected|
    requires RouteAll(expected[..|vs|], vs) && RouteAll(expected[|vs|..][..|ws|], ws)
    ensures RouteAll(expected[..|vs + ws|], vs + ws)
    ensures Ids(expected[..|vs + ws|]) == Ids(expected[..|vs|]) + Ids(expected[|vs|..][..|ws|])
  {
    var a, b := expected[..|vs|], expected[|vs|..][..|ws|];
    TakeMore(expected, |vs|, |ws|);
    RouteAllConcat(a, b, vs, ws);
    IdsConcat(a, b);
  }

  lemma DeliveredTwice(s: State, lost: set<string>, mid: State, lost1: set<string>, after: State, lost2: set<string>,
                       msgs: seq<Event>, first: seq<Option<Write>>, rest: seq<Option<Write>>)
    requires Delivered(s, lost, mid, lost1, msgs, first) && Delivered(mid, lost1, after, lost2, msgs, rest)
    ensures Delivered(s, lost, after, lost2, msgs, first + rest)
    ensures |Expected(msgs, Done(mid, lost1))| == |Expected(msgs, Done(s, lost))| - |first|
  {
    var expected := Expected(msgs, Done(s, lost));
    ExpectedShrinks(msgs, Done(s, lost), |first|);
    StretchConcat(expected, first, rest);
    WrittenAllConcat(s.index, first, rest);
  }

  lemma RouteAllConcat(a: seq<Event>, b: seq<Event>, vs: seq<Option<Write>>, ws: seq<Option<Write>>)
    requires RouteAll(a, vs) && RouteAll(b, ws)
    ensures RouteAll(a + b, vs + ws)
  {
  }

  lemma {:induction false} IdsConcat(a: seq<Event>, b: seq<Event>)
    ensures Ids(a + b) == Ids(a) + Ids(b)
  {
    if a == [] {
      assert a + b == b;
    } else {
      assert a + b == [a[0]] + (a[1..] + b) && a == [a[0]] + a[1..];
      IdsConcat(a[1..], b);
      IdsCons(a[0], a[1..] + b);
      IdsCons(a[0], a[1..]);
    }
  }

  /**
   Whatever lookups, routings and log writes fail: as long as no event is met again whose routing
   was not recorded, an acknowledged batch has routed every distinct allowed event exactly once,
   in batch order, and nothing of the batch is left to route.
   */
  lemma {:induction false} RedeliveryExactlyOnce(s: State, lost: set<string>, msgs: seq<Event>, rounds: seq<seq<Env>>)
    returns (ws: seq<Option<Write>>)
    requires Rounds(msgs, rounds) && s.events.Refines() && NoLostMark(s, lost, AllCalls(s, msgs, rounds))
    ensures var (after, ack) := Redeliver(s, msgs, rounds);
            var lost' := LostAfter(s, lost, AllCalls(s, msgs, rounds));
            && Delivered(s, lost, after, lost', msgs, ws)
            && (ack ==> |ws| == |Expected(msgs, Done(s, lost))| && Expected(msgs, Done(after, lost')) == [])
    decreases |rounds|
  {
    if rounds == [] {
      ws := [];
      DeliveredNothing(s, lost, s, lost, msgs);
    } else {
      var (next, ack) := Batch(s, msgs, rounds[0]);
      var calls := Calls(s, msgs, rounds[0]);
      var lost1 := LostAfter(s, lost, calls);
      CallsTrail(s, msgs, rounds[0]);
      var later := if ack then [] else AllCalls(next, msgs, rounds[1..]);
      SplitLost(s, lost, calls, later);
      ws := BatchEffect(s, lost, msgs, rounds[0]);
      if ack {
        ExpectedShrinks(msgs, Done(s, lost), |ws|);
      } else {
        var rest := RedeliveryExactlyOnce(next, lost1, msgs, rounds[1..]);
        DeliveredTwice(s, lost, next, lost1, Redeliver(s, msgs, rounds).0, LostAfter(next, lost1, later), msgs, ws, rest);
        ws := ws + rest;
      }
    }
  }

  predicate LogWritable(calls: seq<Call>) {
    forall i :: 0 <= i < |calls| ==> calls[i].env.mark.logWriteOk
  }

  /** If every log row can be written, nothing is lost and "done" is what the log says. */
  lemma {:induction false} WritableLosesNothing(s: State, calls: seq<Call>)
    requires LogWritable(calls)
    ensures NoLostMark(s, {}, calls) && LostAfter(s, {}, calls) == {}
    decreases |calls|
  {
    if calls != [] {
      WritableLosesNothing(Step(s, calls[0]), calls[1..]);
    }
  }

  // ---- When a lost record matters ----

  /** Without a lost record, an id that was routed is not routed again. */
  lemma {:induction false} NothingLostIsOnce(s: State, lost: set<string>, seen: set<string>, calls: seq<Call>)
    requires s.events.Refines() && seen <= Done(s, lost) && NoLostMark(s, lost, calls)
    ensures AppliedOnce(s, seen, calls)
    decreases |calls|
  {
    if calls != [] {
      var c := calls[0];
      MessageEffect(s, lost, c);
      NothingLostIsOnce(Step(s, c), LostWith(s, lost, c), if Applies(s, c) then seen + {c.event.id} else seen, calls[1..]);
    }
  }

  /** Every message that is met is met in the end by a call that acknowledges it. */
  ghost predicate Settles(s: State, calls: seq<Call>, e: Event)
    decreases |calls|
  {
    calls != [] && ((calls[0].event == e && Acks(s, calls[0])) || Settles(Step(s, calls[0]), calls[1..], e))
  }

  ghost predicate AllSettle(s: State, calls: seq<Call>)
    decreases |calls|
  {
    calls == [] || (Settles(s, calls, calls[0].event) && AllSettle(Step(s, calls[0]), calls[1..]))
  }

  /** An event routed without a record, and not routed again, is never acknowledged again. */
  lemma {:induction false} NeverSettled(s: State, seen: set<string>, calls: seq<Call>, e: Event)
    requires s.events.Refines() && AppliedOnce(s, seen, calls)
    requires e.id in seen && !s.events.Processed(e.id) && Check(e).Allowed()
    ensures !Settles(s, calls, e)
    decreases |calls|
  {
    if calls != [] {
      var c := calls[0];
      RunKeepsLog(Consumer, s, c.event, c.env);
      NeverSettled(Step(s, c), if Applies(s, c) then seen + {c.event.id} else seen, calls[1..], e);
    }
  }

  lemma {:induction false} OnceIsNothingLost(s: State, lost: set<string>, seen: set<string>, calls: seq<Call>)
    requires s.events.Refines() && lost <= seen && (forall id :: id in lost ==> !s.events.Processed(id))
    requires AppliedOnce(s, seen, calls) && AllSettle(s, calls)
    ensures NoLostMark(s, lost, calls)
    decreases |calls|
  {
    if calls != [] {
      var c := calls[0];
      if c.event.id in lost && Check(c.event).Allowed() {
        NeverSettled(s, seen, calls, c.event);
      }
      RunKeepsLog(Consumer, s, c.event, c.env);
      OnceIsNothingLost(Step(s, c), LostWith(s, lost, c), if Applies(s, c) then seen + {c.event.id} else seen, calls[1..]);
    }
  }

  lemma {:induction false} AckedBatchSettles(s: State, msgs: seq<Event>, envs: seq<Env>)
    requires |envs| == |msgs| && Batch(s, msgs, envs).1
    ensures AllSettle(s, Calls(s, msgs, envs))
    ensures forall e :: e in msgs ==> Settles(s, Calls(s, msgs, envs), e)
    decreases |msgs|
  {
    if msgs != [] {
      var calls := Calls(s, msgs, envs);
      assert calls[1..] == Calls(Step(s, calls[0]), msgs[1..], envs[1..]);
      AckedBatchSettles(Step(s, calls[0]), msgs[1..], envs[1..]);
      assert forall e :: e in msgs ==> e == msgs[0] || e in msgs[1..];
    }
  }

  lemma {:induction false} SettlesLater(s: State, a: seq<Call>, b: seq<Call>, e: Event)
    requires Settles(Trail(s, a), b, e)
    ensures Settles(s, a + b, e)
    decreases |a|
  {
    if a == [] {
      assert a + b == b;
    } else {
      assert (a + b)[1..] == a[1..] + b;
      SettlesLater(Step(s, a[0]), a[1..], b, e);
    }
  }

  lemma {:induction false} AllSettleConcat(s: State, a: seq<Call>, b: seq<Call>)
    requires AllSettle(Trail(s, a), b)
    requires forall i :: 0 <= i < |a| ==> Settles(Trail(s, a), b, a[i].event)
    ensures AllSettle(s, a + b)
    decreases |a|
  {
    if a == [] {
      assert a + b == b;
    } else {
      assert (a + b)[1..] == a[1..] + b;
      AllSettleConcat(Step(s, a[0]), a[1..], b);
      SettlesLater(s, a, b, a[0].event);
    }
  }

  lemma {:induction false} CallsFromBatch(s: State, msgs: seq<Event>, envs: seq<Env>)
    requires |envs| == |msgs|
    ensures forall i :: 0 <= i < |Calls(s, msgs, envs)| ==> Calls(s, msgs, envs)[i].event in msgs
    decreases |msgs|
  {
    if msgs != [] {
      CallsFromBatch(Step(s, Call(msgs[0], envs[0])), msgs[1..], envs[1..]);
      assert msgs == [msgs[0]] + msgs[1..];
    }
  }

  lemma {:induction false} AckedSettles(s: State, msgs: seq<Event>, rounds: seq<seq<Env>>)
    requires Rounds(msgs, rounds) && Redeliver(s, msgs, rounds).1
    ensures AllSettle(s, AllCalls(s, msgs, rounds))
    ensures forall e :: e in msgs ==> Settles(s, AllCalls(s, msgs, rounds), e)
    decreases |rounds|
  {
    var (next, ack) := Batch(s, msgs, rounds[0]);
    var calls := Calls(s, msgs, rounds[0]);
    if ack {
      assert calls + [] == calls;
      AckedBatchSettles(s, msgs, rounds[0]);
    } else {
      var later := AllCalls(next, msgs, rounds[1..]);
      CallsTrail(s, msgs, rounds[0]);
      AckedSettles(next, msgs, rounds[1..]);
      CallsFromBatch(s, msgs, rounds[0]);
      AllSettleConcat(s, calls, later);
      forall e | e in msgs
        ensures Settles(s, calls + later, e)
      {
        SettlesLater(s, calls, later, e);
      }
    }
  }

  /** An acknowledged batch routed no id twice exactly when no lost record was met again. */
  lemma ExactlyOnceIff(s: State, msgs: seq<Event>, rounds: seq<seq<Env>>)
    requires Rounds(msgs, rounds) && s.events.Refines() && Redeliver(s, msgs, rounds).1
    ensures AppliedOnce(s, {}, AllCalls(s, msgs, rounds)) <==> NoLostMark(s, {}, AllCalls(s, msgs, rounds))
  {
    var calls := AllCalls(s, msgs, rounds);
    if NoLostMark(s, {}, calls) {
      NothingLostIsOnce(s, {}, {}, calls);
    }
    if AppliedOnce(s, {}, calls) {
      AckedSettles(s, msgs, rounds);
      OnceIsNothingLost(s, {}, {}, calls);
    }
  }

  // ---- Which batches route no event twice, whatever fails ----

  /** However the deliveries fail, no id is routed twice. */
  ghost predicate AlwaysOnce(s: State, msgs: seq<Event>) {
    forall rounds :: Rounds(msgs, rounds) ==> AppliedOnce(s, {}, AllCalls(s, msgs, rounds))
  }

  /** The first message that is malformed, or allowed and not done, is one that can be routed, and is not the last. */
  predicate CanRepeat(done: set<string>, msgs: seq<Event>) {
    && msgs != [] && !Malformed(Consumer, msgs[0])
    && if msgs[0].id in done || !Check(msgs[0]).Allowed() then CanRepeat(done, msgs[1..])
       else Routable(Consumer, msgs[0]) && |msgs| > 1
  }

  function SeenWith(s: State, seen: set<string>, c: Call): set<string> {
    if Applies(s, c) then seen + {c.event.id} else seen
  }

  function SeenAfter(s: State, seen: set<string>, calls: seq<Call>): set<string>
    decreases |calls|
  {
    if calls == [] then seen else SeenAfter(Step(s, calls[0]), SeenWith(s, seen, calls[0]), calls[1..])
  }

  lemma {:induction false} SplitOnce(s: State, seen: set<string>, a: seq<Call>, b: seq<Call>)
    ensures AppliedOnce(s, seen, a + b) <==> AppliedOnce(s, seen, a) && AppliedOnce(Trail(s, a), SeenAfter(s, seen, a), b)
    decreases |a|
  {
    if a == [] {
      assert a + b == b;
    } else {
      assert (a + b)[1..] == a[1..] + b;
      SplitOnce(Step(s, a[0]), SeenWith(s, seen, a[0]), a[1..], b);
    }
  }

  /** A message that is done, denied, malformed or never taken is not routed. */
  lemma NotApplied(s: State, c: Call)
    requires s.events.Refines()
    requires c.event.id in ProcessedIds(s.events) || !Check(c.event).Allowed() || Malformed(Consumer, c.event)
             || !Routable(Consumer, c.event)
    ensures !Applies(s, c) && Step(s, c).events.Refines()
    ensures ProcessedIds(Step(s, c).events) == ProcessedIds(s.events)
    ensures c.event.id !in ProcessedIds(s.events) && (Check(c.event).Allowed() || Malformed(Consumer, c.event)) ==> !Acks(s, c)
  {
    RunKeepsLog(Consumer, s, c.event, c.env);
    RoutableIff(Consumer, s.index, c.event);
    StepDone(s, {}, c);
    assert Done(s, {}) == ProcessedIds(s.events) && Done(Step(s, c), {}) == ProcessedIds(Step(s, c).events);
  }

  /** A delivery of a batch that cannot repeat routes nothing, or its last message, which ends it. */
  lemma {:induction false} OneRound(s: State, msgs: seq<Event>, envs: seq<Env>)
    requires |envs| == |msgs| && s.events.Refines() && !CanRepeat(ProcessedIds(s.events), msgs)
    ensures var (next, ack) := Batch(s, msgs, envs);
            && AppliedOnce(s, {}, Calls(s, msgs, envs))
            && (!ack ==>
                  && next.events.Refines() && ProcessedIds(next.events) == ProcessedIds(s.events)
                  && SeenAfter(s, {}, Calls(s, msgs, envs)) == {})
    decreases |msgs|
  {
    if msgs != [] {
      var c := Call(msgs[0], envs[0]);
      var calls := Calls(s, msgs, envs);
      if c.event.id in ProcessedIds(s.events) || !Check(c.event).Allowed() || Malformed(Consumer, c.event)
         || !Routable(Consumer, c.event) {
        NotApplied(s, c);
        if Acks(s, c) {
          assert calls[1..] == Calls(Step(s, c), msgs[1..], envs[1..]);
          OneRound(Step(s, c), msgs[1..], envs[1..]);
        } else {
          assert calls[1..] == [];
        }
      } else {
        assert msgs[1..] == [] && calls[1..] == [];
        RunKeepsLog(Consumer, s, c.event, c.env);
        if !Applies(s, c) {
          StepDone(s, {}, c);
          assert Done(s, {}) == ProcessedIds(s.events) && Done(Step(s, c), {}) == ProcessedIds(Step(s, c).events);
        }
      }
    }
  }

  lemma {:induction false} CannotRepeat(s: State, msgs: seq<Event>, rounds: seq<seq<Env>>)
    requires Rounds(msgs, rounds) && s.events.Refines() && !CanRepeat(ProcessedIds(s.events), msgs)
    ensures AppliedOnce(s, {}, AllCalls(s, msgs, rounds))
    decreases |rounds|
  {
    if rounds != [] {
      var (next, ack) := Batch(s, msgs, rounds[0]);
      var calls := Calls(s, msgs, rounds[0]);
      OneRound(s, msgs, rounds[0]);
      if ack {
        assert calls + [] == calls;
      } else {
        CallsTrail(s, msgs, rounds[0]);
        CannotRepeat(next, msgs, rounds[1..]);
        SplitOnce(s, {}, calls, AllCalls(next, msgs, rounds[1..]));
      }
    }
  }

  const BLIND := ALL_UP.(lookup := LookupEnv(false, false, false))

  /** The message to repeat is routed without a record, and nothing can be looked up after that. */
  function RepeatEnvs(done: set<string>, msgs: seq<Event>): (envs: seq<Env>)
    requires CanRepeat(done, msgs)
    ensures |envs| == |msgs|
  {
    if msgs[0].id in done || !Check(msgs[0]).Allowed() then [ALL_UP] + RepeatEnvs(done, msgs[1..])
    else [UNRECORDED] + seq(|msgs| - 1, _ => BLIND)
  }

  function RepeatId(done: set<string>, msgs: seq<Event>): string
    requires CanRepeat(done, msgs)
  {
    if msgs[0].id in done || !Check(msgs[0]).Allowed() then RepeatId(done, msgs[1..]) else msgs[0].id
  }

  /** Such a delivery routes that message, is not acknowledged, and leaves the log as if nothing had been routed. */
  lemma {:induction false} RepeatRound(s: State, seen: set<string>, msgs: seq<Event>)
    requires s.events.Refines() && CanRepeat(ProcessedIds(s.events), msgs)
    ensures var done := ProcessedIds(s.events);
            var envs := RepeatEnvs(done, msgs);
            var (next, ack) := Batch(s, msgs, envs);
            && !ack && next.events.Refines() && ProcessedIds(next.events) == done
            && RepeatId(done, msgs) in SeenAfter(s, seen, Calls(s, msgs, envs))
            && (RepeatId(done, msgs) in seen ==> !AppliedOnce(s, seen, Calls(s, msgs, envs)))
    decreases |msgs|
  {
    var done := ProcessedIds(s.events);
    var envs := RepeatEnvs(done, msgs);
    var c := Call(msgs[0], envs[0]);
    var next := Step(s, c);
    var calls := Calls(s, msgs, envs);
    if msgs[0].id in done || !Check(msgs[0]).Allowed() {
      NotApplied(s, c);
      assert envs[1..] == RepeatEnvs(done, msgs[1..]);
      assert Acks(s, c) && calls[1..] == Calls(next, msgs[1..], envs[1..]);
      RepeatRound(next, seen, msgs[1..]);
    } else {
      FirstRepeat(s, seen, msgs, envs);
    }
  }

  /** Nothing can be looked up: the delivery stops where it is. */
  lemma BlindStop(s: State, msgs: seq<Event>, envs: seq<Env>)
    requires |envs| == |msgs| > 0 && envs[0] == BLIND
    ensures Batch(s, msgs, envs) == (s, false) && Calls(s, msgs, envs) == [Call(msgs[0], BLIND)]
  {
  }

  lemma FirstRepeat(s: State, seen: set<string>, msgs: seq<Event>, envs: seq<Env>)
    requires s.events.Refines() && |envs| == |msgs| > 1 && envs[0] == UNRECORDED && envs[1] == BLIND
    requires !Malformed(Consumer, msgs[0]) && Check(msgs[0]).Allowed() && Routable(Consumer, msgs[0])
    requires msgs[0].id !in ProcessedIds(s.events)
    ensures var (next, ack) := Batch(s, msgs, envs);
            && !ack && next.events.Refines() && ProcessedIds(next.events) == ProcessedIds(s.events)
            && msgs[0].id in SeenAfter(s, seen, Calls(s, msgs, envs))
            && (msgs[0].id in seen ==> !AppliedOnce(s, seen, Calls(s, msgs, envs)))
  {
    var c := Call(msgs[0], UNRECORDED);
    var next := Step(s, c);
    var d := Call(msgs[1], BLIND);
    RunKeepsLog(Consumer, s, msgs[0], UNRECORDED);
    StepDone(s, {}, c);
    assert Applies(s, c);
    assert ProcessedIds(next.events) == ProcessedIds(s.events);
    assert !Acks(next, d) && Step(next, d) == next;
    BlindStop(next, msgs[1..], envs[1..]);
    var calls := Calls(s, msgs, envs);
    assert calls[0] == c && calls[1..] == [d] && [d][1..] == [];
    var seen' := seen + {msgs[0].id};
    assert SeenWith(s, seen, c) == seen' && SeenWith(next, seen', d) == seen';
    assert SeenAfter(next, seen', [d]) == seen';
  }

  /** Deliveries of a batch route no event twice, whatever fails, exactly when the batch cannot repeat. */
  lemma AlwaysOnceIff(s: State, msgs: seq<Event>)
    requires s.events.Refines()
    ensures AlwaysOnce(s, msgs) <==> !CanRepeat(ProcessedIds(s.events), msgs)
  {
    if CanRepeat(ProcessedIds(s.events), msgs) {
      RepeatsTwice(s, msgs);
    } else {
      forall rounds | Rounds(msgs, rounds)
        ensures AppliedOnce(s, {}, AllCalls(s, msgs, rounds))
      {
        CannotRepeat(s, msgs, rounds);
      }
    }
  }

  lemma RepeatsTwice(s: State, msgs: seq<Event>)
    requires s.events.Refines() && CanRepeat(ProcessedIds(s.events), msgs)
    ensures !AlwaysOnce(s, msgs)
  {
    var envs := RepeatEnvs(ProcessedIds(s.events), msgs);
    var mid := Batch(s, msgs, envs).0;
    var first, second := Calls(s, msgs, envs), Calls(mid, msgs, envs);
    RepeatRound(s, {}, msgs);
    RepeatRound(mid, SeenAfter(s, {}, first), msgs);
    CallsTrail(s, msgs, envs);
    var rounds := [envs, envs];
    assert rounds[1..] == [envs];
    assert AllCalls(mid, msgs, [envs]) == second + [] == second;
    SplitOnce(s, {}, first, second);
    assert !AppliedOnce(s, {}, AllCalls(s, msgs, rounds));
  }

  // ---- Every routed event was audited ----

  /** Audit rows are only added; and if they can be, every routed event has one, which allows it. */
  lemma {:induction false} RoutedIsAudited(s: State, calls: seq<Call>, n: nat)
    requires n < |calls|
    ensures |s.audit| <= |Trail(s, calls).audit| && Trail(s, calls).audit[..|s.audit|] == s.audit
    ensures Applies(Trail(s, calls[..n]), calls[n]) && calls[n].env.auditOk ==>
              AuditOf(calls[n].event) in Trail(s, calls).audit && AuditOf(calls[n].event).decision.Allowed()
    decreases |calls|
  {
    var c := calls[0];
    var next := Step(s, c);
    RunAudits(Consumer, s, c.event, c.env);
    AuditGrows(next, calls[1..]);
    if n > 0 {
      assert calls[1..][n - 1] == calls[n];
      assert calls[..n][0] == c && calls[..n][1..] == calls[1..][..n - 1];
      RoutedIsAudited(next, calls[1..], n - 1);
    } else if Applies(s, c) && c.env.auditOk {
      assert next.audit[|s.audit|] == AuditOf(c.event);
      assert Trail(next, calls[1..]).audit[..|next.audit|][|s.audit|] == AuditOf(c.event);
    }
  }

  lemma {:induction false} AuditGrows(s: State, calls: seq<Call>)
    ensures |s.audit| <= |Trail(s, calls).audit| && Trail(s, calls).audit[..|s.audit|] == s.audit
    decreases |calls|
  {
    if calls != [] {
      RunAudits(Consumer, s, calls[0].event, calls[0].env);
      AuditGrows(Step(s, calls[0]), calls[1..]);
      assert Step(s, calls[0]).audit[..|s.audit|] == s.audit;
    }
  }

  // ---- Which batches can be acknowledged at all ----

  predicate Acknowledges(s: State, msgs: seq<Event>, rounds: seq<seq<Env>>) {
    Rounds(msgs, rounds) && Redeliver(s, msgs, rounds).1
  }

  predicate AllRoutable(es: seq<Event>) {
    forall i :: 0 <= i < |es| ==> Routable(Consumer, es[i])
  }

  lemma {:induction false} AckMeansWellFormed(s: State, msgs: seq<Event>, envs: seq<Env>)
    requires |envs| == |msgs| && Batch(s, msgs, envs).1
    ensures WellFormed(msgs)
    decreases |msgs|
  {
    if msgs != [] {
      AckMeansWellFormed(Run(Consumer, s, msgs[0], envs[0]), msgs[1..], envs[1..]);
      assert msgs == [msgs[0]] + msgs[1..];
    }
  }

  lemma {:induction false} SomeRoundAcknowledged(s: State, msgs: seq<Event>, rounds: seq<seq<Env>>)
    requires Acknowledges(s, msgs, rounds)
    ensures WellFormed(msgs)
    decreases |rounds|
  {
    var (next, ack) := Batch(s, msgs, rounds[0]);
    if ack {
      AckMeansWellFormed(s, msgs, rounds[0]);
    } else {
      SomeRoundAcknowledged(next, msgs, rounds[1..]);
    }
  }

  /** The first allowed message of an id that is not processed, and no attempt to route it can succeed. */
  predicate Blocks(s: State, msgs: seq<Event>, i: nat) {
    && i < |msgs| && !s.events.Processed(msgs[i].id) && Check(msgs[i]).Allowed() && !Routable(Consumer, msgs[i])
    && forall j :: 0 <= j < i ==> msgs[j].id != msgs[i].id || !Check(msgs[j]).Allowed()
  }

  lemma UnroutableFails(s: State, c: Call)
    requires s.events.Refines() && !s.events.Processed(c.event.id) && Check(c.event).Allowed() && !Routable(Consumer, c.event)
    ensures !Acks(s, c)
  {
    RoutableIff(Consumer, s.index, c.event);
  }

  /** It stops every delivery, and stays what it is. */
  lemma {:induction false} BlockedBatch(s: State, msgs: seq<Event>, envs: seq<Env>, i: nat)
    requires |envs| == |msgs| && s.events.Refines() && Blocks(s, msgs, i)
    ensures !Batch(s, msgs, envs).1
    ensures Batch(s, msgs, envs).0.events.Refines() && !Batch(s, msgs, envs).0.events.Processed(msgs[i].id)
    decreases |msgs|
  {
    var c := Call(msgs[0], envs[0]);
    RunKeepsLog(Consumer, s, c.event, c.env);
    if i == 0 {
      UnroutableFails(s, c);
    } else {
      assert msgs[0].id != msgs[i].id || !Check(msgs[0]).Allowed();
      assert forall j :: 0 <= j < |msgs| - 1 ==> msgs[1..][j] == msgs[j + 1];
      BlockedBatch(Step(s, c), msgs[1..], envs[1..], i - 1);
    }
  }

  lemma {:induction false} NeverAcknowledged(s: State, msgs: seq<Event>, rounds: seq<seq<Env>>, i: nat)
    requires Rounds(msgs, rounds) && s.events.Refines() && Blocks(s, msgs, i)
    ensures !Redeliver(s, msgs, rounds).1
    decreases |rounds|
  {
    if rounds != [] {
      BlockedBatch(s, msgs, rounds[0], i);
      NeverAcknowledged(Batch(s, msgs, rounds[0]).0, msgs, rounds[1..], i);
    }
  }

  /** Where an expected event stands in the batch. */
  lemma {:induction false} ExpectedAt(msgs: seq<Event>, done: set<string>, k: nat) returns (i: nat)
    requires k < |Expected(msgs, done)|
    ensures i < |msgs| && msgs[i] == Expected(msgs, done)[k] && msgs[i].id !in done && Check(msgs[i]).Allowed()
    ensures forall j :: 0 <= j < i ==> msgs[j].id != msgs[i].id || !Check(msgs[j]).Allowed()
  {
    var e := msgs[0];
    if e.id in done || !Check(e).Allowed() {
      i := ExpectedAt(msgs[1..], done, k);
      assert forall j :: 0 < j <= i ==> msgs[j] == msgs[1..][j - 1];
      i := i + 1;
    } else if k == 0 {
      i := 0;
    } else {
      i := ExpectedAt(msgs[1..], done + {e.id}, k - 1);
      assert forall j :: 0 < j <= i ==> msgs[j] == msgs[1..][j - 1];
      i := i + 1;
    }
  }

  lemma UpOutcome(s: State, e: Event)
    requires s.events.Refines() && !Malformed(Consumer, e)
    requires e.id !in ProcessedIds(s.events) && Check(e).Allowed() ==> Routable(Consumer, e)
    ensures Acks(s, Call(e, ALL_UP))
    ensures ProcessedIds(Step(s, Call(e, ALL_UP)).events) ==
            ProcessedIds(s.events) + (if Check(e).Allowed() then {e.id} else {})
    ensures Step(s, Call(e, ALL_UP)).events.Refines()
  {
    var c := Call(e, ALL_UP);
    RunKeepsLog(Consumer, s, e, ALL_UP);
    StepDone(s, {}, c);
    assert Done(s, {}) == ProcessedIds(s.events) && Done(Step(s, c), {}) == ProcessedIds(Step(s, c).events);
    assert LostWith(s, {}, c) == {};
    assert e.id in ProcessedIds(s.events) ==> ProcessedIds(s.events) + {e.id} == ProcessedIds(s.events);
  }

  /** When everything works, one delivery of a batch that nothing blocks is acknowledged. */
  lemma {:induction false} UpAcknowledges(s: State, msgs: seq<Event>) returns (envs: seq<Env>)
    requires WellFormed(msgs) && s.events.Refines() && AllRoutable(Expected(msgs, ProcessedIds(s.events)))
    ensures |envs| == |msgs| && Batch(s, msgs, envs).1
    decreases |msgs|
  {
    envs := [];
    if msgs != [] {
      var e, done := msgs[0], ProcessedIds(s.events);
      var expected := Expected(msgs, done);
      var next := Step(s, Call(e, ALL_UP));
      if e.id !in done && Check(e).Allowed() {
        assert Routable(Consumer, expected[0]);
        assert expected[1..] == Expected(msgs[1..], done + {e.id});
        assert forall i :: 0 <= i < |expected| - 1 ==> expected[1..][i] == expected[i + 1];
      } else {
        assert ProcessedIds(s.events) + (if Check(e).Allowed() then {e.id} else {}) == done;
      }
      UpOutcome(s, e);
      var rest := UpAcknowledges(next, msgs[1..]);
      envs := [ALL_UP] + rest;
      assert envs[1..] == rest;
    }
  }

  /**
   A batch can ever be acknowledged exactly when no message in it is malformed and every event it
   is expected to route is one the database takes: any other blocks it for good.
   */
  lemma AcknowledgeableIff(s: State, msgs: seq<Event>)
    requires s.events.Refines()
    ensures (exists rounds :: Acknowledges(s, msgs, rounds)) <==>
            WellFormed(msgs) && AllRoutable(Expected(msgs, ProcessedIds(s.events)))
  {
    var expected := Expected(msgs, ProcessedIds(s.events));
    if rounds :| Acknowledges(s, msgs, rounds) {
      SomeRoundAcknowledged(s, msgs, rounds);
      forall k | 0 <= k < |expected|
        ensures Routable(Consumer, expected[k])
      {
        var i := ExpectedAt(msgs, ProcessedIds(s.events), k);
        if !Routable(Consumer, msgs[i]) {
          assert !s.events.Processed(msgs[i].id) && Blocks(s, msgs, i);
          NeverAcknowledged(s, msgs, rounds, i);
        }
      }
    }
    if WellFormed(msgs) && AllRoutable(expected) {
      var envs := UpAcknowledges(s, msgs);
      assert Acknowledges(s, msgs, [envs]);
    }
  }

  /** An allowed post of more than 166 three-byte characters is refused on every delivery, and holds up its batch. */
  lemma LongPostBlocks(s: State, msgs: seq<Event>, rounds: seq<seq<Env>>, i: nat, n: nat)
    requires Rounds(msgs, rounds) && s.events.Refines() && n > 166
    requires i < |msgs| && msgs[i].etype.PostCreated? && msgs[i].payload.content == Ideographs(n) && Check(msgs[i]).Allowed()
    requires !s.events.Processed(msgs[i].id) && forall j :: 0 <= j < i ==> msgs[j].id != msgs[i].id
    ensures Utf8.Valid(msgs[i].payload.content) && !Redeliver(s, msgs, rounds).1
  {
    IdeographsAreCut(n);
    NeverAcknowledged(s, msgs, rounds, i);
  }

  // ---- Two clusters that consume the same batch ----

  function Somes(ws: seq<Option<Write>>): seq<Write> {
    if ws == [] then []
    else Somes(ws[..|ws| - 1]) + (if ws[|ws| - 1].Some? then [ws[|ws| - 1].value] else [])
  }

  lemma {:induction false} WrittenIsFold(idx: Index, ws: seq<Option<Write>>)
    ensures WrittenAll(idx, ws) == Fold(idx, Somes(ws))
  {
    if ws != [] {
      var prev, last := ws[..|ws| - 1], ws[|ws| - 1];
      WrittenIsFold(idx, prev);
      assert ws == prev + [last];
      WrittenAllConcat(idx, prev, [last]);
      assert [last][1..] == [];
      var all := Somes(ws);
      if last.Some? {
        assert all[..|all| - 1] == Somes(prev);
      } else {
        assert all == Somes(prev);
      }
    }
  }

  /** The write of routing `e`, but for the clock and the counts that are read on the way. */
  function NominalWrite(e: Event): (w: Option<Write>)
    ensures RoutesTo(e, w)
  {
    match e.etype
    case PostCreated => Some(Create(e, 0))
    case PostUpdated => Some(Update(e, 0))
    case PostDeleted => Some(Delete(e.payload.postUid))
    case PostStatsUpdated => Some(SetStats(e.payload.postUid, NO_STATS, 0))
    case _ => None
  }

  function Nominal(es: seq<Event>): (ws: seq<Option<Write>>)
    ensures RouteAll(es, ws)
  {
    seq(|es|, i requires 0 <= i < |es| => NominalWrite(es[i]))
  }

  /** If routing `es` brings the post's row into being, it is by an event with a creation time. */
  predicate RowDated(idx: Index, es: seq<Event>, uid: int64) {
    BirthDated(Lookup(idx, uid), ForPost(Somes(Nominal(es)), uid))
  }

  predicate StatsOf(e: Event, uid: int64) {
    e.etype.PostStatsUpdated? && e.payload.postUid == uid
  }

  predicate Uncounted(es: seq<Event>, uid: int64) {
    forall i :: 0 <= i < |es| ==> !StatsOf(es[i], uid)
  }

  lemma {:induction false} SomesSameEvents(es: seq<Event>, vs: seq<Option<Write>>, ws: seq<Option<Write>>)
    requires RouteAll(es, vs) && RouteAll(es, ws)
    ensures SameEvents(Somes(vs), Somes(ws))
  {
    if es != [] {
      var n := |es| - 1;
      SomesSameEvents(es[..n], vs[..n], ws[..n]);
      assert RoutesTo(es[n], vs[n]) && RoutesTo(es[n], ws[n]);
    }
  }

  lemma {:induction false} ForPostSameEvents(vs: seq<Write>, ws: seq<Write>, uid: int64)
    requires SameEvents(vs, ws)
    ensures SameEvents(ForPost(vs, uid), ForPost(ws, uid))
  {
    if vs != [] {
      var n := |vs| - 1;
      ForPostSameEvents(vs[..n], ws[..n], uid);
      assert SameEvent(vs[n], ws[n]);
    }
  }

  lemma {:induction false} UncountedWrites(es: seq<Event>, ws: seq<Option<Write>>, uid: int64)
    requires RouteAll(es, ws) && Uncounted(es, uid)
    ensures forall i :: 0 <= i < |ForPost(Somes(ws), uid)| ==> !ForPost(Somes(ws), uid)[i].SetStats?
  {
    if es != [] {
      var n := |es| - 1;
      UncountedWrites(es[..n], ws[..n], uid);
      assert RoutesTo(es[n], ws[n]) && !StatsOf(es[n], uid);
      if ws[n].Some? {
        assert Somes(ws)[..|Somes(ws)| - 1] == Somes(ws[..n]);
      } else {
        assert Somes(ws) == Somes(ws[..n]);
      }
    }
  }

  /** Expected events are messages of the batch. */
  lemma {:induction false} ExpectedFromBatch(msgs: seq<Event>, done: set<string>)
    ensures forall e :: e in Expected(msgs, done) ==> e in msgs
  {
    if msgs != [] {
      ExpectedFromBatch(msgs[1..], done);
      ExpectedFromBatch(msgs[1..], done + {msgs[0].id});
      assert msgs == [msgs[0]] + msgs[1..];
    }
  }

  /** Two routings of the same events differ in sync times, in counts that were read, in creation times that were not sent. */
  lemma RoutingsConverge(idx: Index, es: seq<Event>, vs: seq<Option<Write>>, ws: seq<Option<Write>>, uid: int64)
    requires RouteAll(es, vs) && RouteAll(es, ws)
    ensures SameRow(Lookup(WrittenAll(idx, vs), uid), Lookup(WrittenAll(idx, ws), uid), RowDated(idx, es, uid), Uncounted(es, uid))
  {
    var v, w, r := ForPost(Somes(vs), uid), ForPost(Somes(ws), uid), Lookup(idx, uid);
    PostSameEvents(es, vs, ws, uid);
    PostSameEvents(es, vs, Nominal(es), uid);
    WrittenIsFold(idx, vs);
    WrittenIsFold(idx, ws);
    FoldPerPost(idx, Somes(vs), uid);
    FoldPerPost(idx, Somes(ws), uid);
    RowsAgree(r, v, w);
    RowsAgree(r, v, ForPost(Somes(Nominal(es)), uid));
    if Uncounted(es, uid) {
      UncountedWrites(es, vs, uid);
    }
  }

  lemma PostSameEvents(es: seq<Event>, vs: seq<Option<Write>>, ws: seq<Option<Write>>, uid: int64)
    requires RouteAll(es, vs) && RouteAll(es, ws)
    ensures SameEvents(ForPost(Somes(vs), uid), ForPost(Somes(ws), uid))
  {
    SomesSameEvents(es, vs, ws);
    ForPostSameEvents(Somes(vs), Somes(ws), uid);
  }

  /** The batch gets acknowledged without meeting a lost record again, and `after` is what it leaves. */
  ghost predicate EndsIn(s: State, msgs: seq<Event>, rounds: seq<seq<Env>>, after: State) {
    && Rounds(msgs, rounds) && NoLostMark(s, {}, AllCalls(s, msgs, rounds))
    && Redeliver(s, msgs, rounds) == (after, true)
  }

  /** An acknowledged batch leaves the index that routing the expected events in order leaves. */
  lemma AcknowledgedRouting(s: State, msgs: seq<Event>, rounds: seq<seq<Env>>, after: State) returns (ws: seq<Option<Write>>)
    requires s.events.Refines() && EndsIn(s, msgs, rounds, after)
    ensures RouteAll(Expected(msgs, ProcessedIds(s.events)), ws) && after.index == WrittenAll(s.index, ws)
  {
    ws := RedeliveryExactlyOnce(s, {}, msgs, rounds);
    var expected := Expected(msgs, ProcessedIds(s.events));
    assert Done(s, {}) == ProcessedIds(s.events);
    assert expected[..|ws|] == expected;
  }

  /**
   Clusters that start from the same index and the same processed events, and both get the batch
   acknowledged, end with the same rows, however differently their deliveries failed: the same
   but for sync times, for the counts of posts with a stats event, which each cluster reads from
   its own database, and for the creation time of a row born of an undated event.
   */
  lemma ClustersConverge(s1: State, s2: State, msgs: seq<Event>, rounds1: seq<seq<Env>>, rounds2: seq<seq<Env>>,
                         after1: State, after2: State)
    requires s1.events.Refines() && s2.events.Refines()
    requires s1.index == s2.index && ProcessedIds(s1.events) == ProcessedIds(s2.events)
    requires EndsIn(s1, msgs, rounds1, after1) && EndsIn(s2, msgs, rounds2, after2)
    ensures var es := Expected(msgs, ProcessedIds(s1.events));
            forall uid ::
              SameRow(Lookup(after1.index, uid), Lookup(after2.index, uid), RowDated(s1.index, es, uid), Uncounted(es, uid))
  {
    var es := Expected(msgs, ProcessedIds(s1.events));
    var vs := AcknowledgedRouting(s1, msgs, rounds1, after1);
    var ws := AcknowledgedRouting(s2, msgs, rounds2, after2);
    forall uid: int64
      ensures SameRow(Lookup(after1.index, uid), Lookup(after2.index, uid), RowDated(s1.index, es, uid), Uncounted(es, uid))
    {
      RoutingsConverge(s1.index, es, vs, ws, uid);
    }
  }

  // ---- What a lost record can cost ----

  const UNRECORDED := ALL_UP.(mark := MarkEnv(false, true))

  const REFUSED := ALL_UP.(execOk := false)

  lemma BatchHead(s: State, e: Event, es: seq<Event>, env: Env, envs: seq<Env>)
    requires |es| == |envs|
    ensures Batch(s, [e] + es, [env] + envs) ==
            if Acks(s, Call(e, env)) then Batch(Run(Consumer, s, e, env), es, envs) else (Run(Consumer, s, e, env), false)
  {
    assert ([e] + es)[1..] == es && ([env] + envs)[1..] == envs;
  }

  /** A batch of three whose first two messages are acknowledged. */
  lemma BatchOfThree(s: State, e: Event, f: Event, g: Event, x: Env, y: Env, z: Env)
    requires var s1 := Run(Consumer, s, e, x); Acks(s, Call(e, x)) && Acks(s1, Call(f, y))
    ensures var s2 := Run(Consumer, Run(Consumer, s, e, x), f, y);
            Batch(s, [e, f, g], [x, y, z]) == (Run(Consumer, s2, g, z), Acks(s2, Call(g, z)))
  {
    var s1 := Run(Consumer, s, e, x);
    assert [e, f, g] == [e] + [f, g] && [f, g] == [f] + [g] && [g] == [g] + [];
    assert [x, y, z] == [x] + [y, z] && [y, z] == [y] + [z] && [z] == [z] + [];
    BatchHead(s, e, [f, g], x, [y, z]);
    BatchHead(s1, f, [g], y, [z]);
    BatchHead(Run(Consumer, s1, f, y), g, [], z, []);
  }

  /** Three messages, none of them done; the third cannot stop the first two. */
  predicate Fresh(s: State, create: Event, update: Event, delete: Event) {
    && s.events.Refines() && WellFormed([create, update, delete])
    && create.etype.PostCreated? && update.etype.PostUpdated? && delete.etype.PostDeleted?
    && Check(create).Allowed() && Check(update).Allowed() && Storable(create) && Storable(update)
    && update.payload.postUid == create.payload.postUid != delete.payload.postUid
    && create.id != update.id && create.id != delete.id && update.id != delete.id
    && !s.events.Processed(create.id) && !s.events.Processed(update.id) && !s.events.Processed(delete.id)
  }

  /** The first delivery: the create is applied but not recorded, the update is both, the delete is refused. */
  lemma FirstDelivery(s: State, create: Event, update: Event, delete: Event) returns (mid: State)
    requires Fresh(s, create, update, delete)
    ensures Batch(s, [create, update, delete], [UNRECORDED, ALL_UP, REFUSED]) == (mid, false)
    ensures mid.events.Refines() && mid.events.Processed(update.id)
    ensures !mid.events.Processed(create.id) && !mid.events.Processed(delete.id)
  {
    var s1 := Run(Consumer, s, create, UNRECORDED);
    var s2 := Run(Consumer, s1, update, ALL_UP);
    mid := Run(Consumer, s2, delete, REFUSED);
    WellFormedThree(create, update, delete);
    RunKeepsLog(Consumer, s, create, UNRECORDED);
    assert OutcomeOf(Consumer, s, create, UNRECORDED).Applied?;
    RunKeepsLog(Consumer, s1, update, ALL_UP);
    assert OutcomeOf(Consumer, s1, update, ALL_UP).Applied?;
    RunKeepsLog(Consumer, s2, delete, REFUSED);
    assert OutcomeOf(Consumer, s2, delete, REFUSED).RouteFailure?;
    BatchOfThree(s, create, update, delete, UNRECORDED, ALL_UP, REFUSED);
  }

  lemma WellFormedThree(e: Event, f: Event, g: Event)
    requires WellFormed([e, f, g])
    ensures !Malformed(Consumer, e) && !Malformed(Consumer, f) && !Malformed(Consumer, g)
  {
    var msgs := [e, f, g];
    assert msgs[0] == e && msgs[1] == f && msgs[2] == g;
  }

  /** The second one: the create is routed again, the update is skipped, the delete goes through. */
  lemma SecondDelivery(s: State, create: Event, update: Event, delete: Event) returns (end: State)
    requires s.events.Refines() && WellFormed([create, update, delete])
    requires create.etype.PostCreated? && delete.etype.PostDeleted? && Check(create).Allowed() && Storable(create)
    requires create.payload.postUid != delete.payload.postUid && create.id != update.id && create.id != delete.id
    requires s.events.Processed(update.id) && !s.events.Processed(create.id) && !s.events.Processed(delete.id)
    ensures Batch(s, [create, update, delete], [ALL_UP, ALL_UP, ALL_UP]) == (end, true)
    ensures Lookup(end.index, create.payload.postUid).Some?
    ensures end.index[create.payload.postUid].content == ContentOf(create)
    ensures end.events.Processed(create.id) && end.events.Processed(update.id) && end.events.Processed(delete.id)
  {
    var s1 := Run(Consumer, s, create, ALL_UP);
    var s2 := Run(Consumer, s1, update, ALL_UP);
    end := Run(Consumer, s2, delete, ALL_UP);
    WellFormedThree(create, update, delete);
    RunKeepsLog(Consumer, s, create, ALL_UP);
    assert OutcomeOf(Consumer, s, create, ALL_UP).Applied?;
    RunKeepsLog(Consumer, s1, update, ALL_UP);
    assert OutcomeOf(Consumer, s1, update, ALL_UP).AlreadyProcessed?;
    RunKeepsLog(Consumer, s2, delete, ALL_UP);
    assert OutcomeOf(Consumer, s2, delete, ALL_UP).Applied?;
    BatchOfThree(s, create, update, delete, ALL_UP, ALL_UP, ALL_UP);
  }

  /** The batch is acknowledged, every event is processed, and the row shows what the update had replaced. */
  lemma UpdateIsLost(s: State, create: Event, update: Event, delete: Event)
    requires Fresh(s, create, update, delete)
    ensures var (end, ack) := Redeliver(s, [create, update, delete], [[UNRECORDED, ALL_UP, REFUSED], [ALL_UP, ALL_UP, ALL_UP]]);
            && ack && end.events.Processed(create.id) && end.events.Processed(update.id) && end.events.Processed(delete.id)
            && Lookup(end.index, create.payload.postUid).Some?
            && end.index[create.payload.postUid].content == ContentOf(create)
  {
    var msgs, rounds := [create, update, delete], [[UNRECORDED, ALL_UP, REFUSED], [ALL_UP, ALL_UP, ALL_UP]];
    var mid := FirstDelivery(s, create, update, delete);
    var end := SecondDelivery(mid, create, update, delete);
    var second := [ALL_UP, ALL_UP, ALL_UP];
    assert rounds[1..] == [second];
    assert [second][0] == second && Batch(mid, msgs, second) == (end, true);
    assert Redeliver(mid, msgs, [second]) == (end, true);
  }
}
