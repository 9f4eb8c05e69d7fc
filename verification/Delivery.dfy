/**
 What arrives: in a run in which no message is lost, no entry is unhealthy and the receiving
 stores work, every event that a cluster accepted is processed at every cluster it knows once the
 traffic has died out, whatever was reset, expired or handled in between.
 */
module Delivery {
  import opened EventLog
  import opened Gossip
  import opened Model
  import opened Pipeline
  import opened Seqs
  import opened Wrappers

  /** Every store a received event needs answers; Redis may fail. */
  predicate StoresUp(env: Env) {
    && env.lookup.logReadOk && env.execOk && env.fallbackOk && !env.stats.QueryFailed? && env.tagOk
    && env.mark.logWriteOk
  }

  predicate AllHealthy(healthy: seq<bool>) {
    forall k :: 0 <= k < |healthy| ==> healthy[k]
  }

  /** Submissions may fail in any way; what is received is not lost, and finds the stores working. */
  predicate Benign(s: Step) {
    match s
    case Receive(_, env, _, _) => StoresUp(env)
    case Lose(_) => false
    case HealthChange(_, healthy) => AllHealthy(healthy)
    case _ => true
  }

  predicate AllBenign(steps: seq<Step>) {
    forall k :: 0 <= k < |steps| ==> Benign(steps[k])
  }

  // ---- One event at one cluster ----

  lemma AcceptedIsRoutable(e: Event, m: Moment)
    requires AppliedAt(e, m)
    ensures !Malformed(Handler, e) && Check(e).Allowed() && Routable(Handler, e)
  {
    RoutableIff(Handler, m.state.index, e);
  }

  lemma RoutesWhenUp(s: State, e: Event, env: Env)
    requires StoresUp(env) && Routable(Handler, e)
    ensures Route(Handler, s.index, e, env).RouteOk?
  {
  }

  lemma ReceivedIsProcessed(s: State, e: Event, env: Env)
    requires StoresUp(env) && s.events.Refines()
    requires !Malformed(Handler, e) && Check(e).Allowed() && Routable(Handler, e)
    ensures Run(Handler, s, e, env).events.Processed(e.id)
  {
    RoutesWhenUp(s, e, env);
    RunKeepsLog(Handler, s, e, env);
  }

  // ---- One peer entry ----

  predicate InFlight(ms: multiset<Message>, i: nat, k: nat, id: string) {
    exists m :: m in ms && m.src == i && m.entry == k && m.event.id == id
  }

  /** The cluster behind entry k of cluster i has processed the id, or a message with it is sure to come. */
  predicate Heard(dests: Dests, net: Net, i: nat, k: nat, id: string)
    requires |net.nodes| == |dests| && i < |dests| && k < |dests[i]|
  {
    var dst := dests[i][k];
    dst < |dests| ==>
      Open(net.sending, i, id) > 0 || InFlight(net.inflight, i, k, id) || net.nodes[dst].state.events.Processed(id)
  }

  predicate Promised(dests: Dests, net: Net, i: nat, k: nat, id: string)
    requires |net.nodes| == |dests| && i < |dests| && k < |dests[i]|
  {
    && (id in net.nodes[i].sent ==> Heard(dests, net, i, k, id))
    && (net.nodes[i].accepts[id] > 0 ==> Open(net.casts, i, id) > 0 || Heard(dests, net, i, k, id))
  }

  lemma {:induction false} FanoutReaches(src: nat, e: Event, healthy: seq<bool>, k: nat)
    requires k < |healthy| && AllHealthy(healthy)
    ensures Message(src, k, e) in Fanout(src, e, healthy)
  {
    var n := |healthy| - 1;
    if k < n {
      FanoutReaches(src, e, healthy[..n], k);
    }
  }

  lemma GatePromised(dests: Dests, net: Net, j: nat, i: nat, k: nat, id: string)
    requires WellFormed(dests, net) && j < |net.casts| && i < |dests| && k < |dests[i]|
    requires Promised(dests, net, i, k, id)
    ensures Promised(dests, AfterGate(net, j), i, k, id)
  {
    OpenLess(net.casts, j, i, id);
    OpenMore(net.sending, net.casts[j], i, id);
  }

  lemma SendHeard(dests: Dests, net: Net, j: nat, i: nat, k: nat, id: string)
    requires WellFormed(dests, net) && j < |net.sending| && i < |dests| && k < |dests[i]|
    requires AllHealthy(net.nodes[net.sending[j].node].healthy) && Heard(dests, net, i, k, id)
    ensures Heard(dests, AfterSend(net, j), i, k, id)
  {
    var t := net.sending[j];
    OpenLess(net.sending, j, i, id);
    if t.node == i && t.event.id == id {
      FanoutReaches(i, t.event, net.nodes[i].healthy, k);
      assert Message(i, k, t.event) in AfterSend(net, j).inflight;
    } else if InFlight(net.inflight, i, k, id) {
      var m :| m in net.inflight && m.src == i && m.entry == k && m.event.id == id;
      assert m in AfterSend(net, j).inflight;
    }
  }

  lemma SendPromised(dests: Dests, net: Net, j: nat, i: nat, k: nat, id: string)
    requires WellFormed(dests, net) && j < |net.sending| && i < |dests| && k < |dests[i]|
    requires AllHealthy(net.nodes[net.sending[j].node].healthy) && Promised(dests, net, i, k, id)
    ensures Promised(dests, AfterSend(net, j), i, k, id)
  {
    if Heard(dests, net, i, k, id) {
      SendHeard(dests, net, j, i, k, id);
    }
  }

  lemma LocalPromised(dests: Dests, net: Net, t: Task, env: Env, goes: bool, i: nat, k: nat, id: string)
    requires WellFormed(dests, net) && t.node < |dests| && i < |dests| && k < |dests[i]|
    requires Promised(dests, net, i, k, id)
    ensures Promised(dests, AfterLocal(net, t, env, Run(Handler, net.nodes[t.node].state, t.event, env), goes), i, k, id)
  {
    RunKeepsProcessed(Handler, net.nodes[t.node].state, t.event, env);
    OpenMore(net.casts, t, i, id);
  }

  /** Either the message was another one, or this cluster has processed the id now. */
  lemma ReceiveHeard(dests: Dests, net: Net, m: Message, env: Env, i: nat, k: nat, id: string)
    requires WellFormed(dests, net) && m in net.inflight && i < |dests| && k < |dests[i]| && Destination(dests, m) < |dests|
    requires var dst := Destination(dests, m); Run(Handler, net.nodes[dst].state, m.event, env).events.Processed(m.event.id)
    requires Heard(dests, net, i, k, id)
    ensures var dst := Destination(dests, m);
            Heard(dests, AfterReceive(net, dst, m, Run(Handler, net.nodes[dst].state, m.event, env), false), i, k, id)
  {
    var dst := Destination(dests, m);
    RunKeepsProcessed(Handler, net.nodes[dst].state, m.event, env);
    if InFlight(net.inflight, i, k, id) && !(m.src == i && m.entry == k && m.event.id == id) {
      var x :| x in net.inflight && x.src == i && x.entry == k && x.event.id == id;
      assert x in net.inflight - multiset{m};
    }
  }

  lemma ReceivePromised(dests: Dests, net: Net, m: Message, env: Env, i: nat, k: nat, id: string)
    requires WellFormed(dests, net) && m in net.inflight && i < |dests| && k < |dests[i]| && Destination(dests, m) < |dests|
    requires var dst := Destination(dests, m); Run(Handler, net.nodes[dst].state, m.event, env).events.Processed(m.event.id)
    requires Promised(dests, net, i, k, id)
    ensures var dst := Destination(dests, m);
            Promised(dests, AfterReceive(net, dst, m, Run(Handler, net.nodes[dst].state, m.event, env), false), i, k, id)
  {
    if Heard(dests, net, i, k, id) {
      ReceiveHeard(dests, net, m, env, i, k, id);
    }
  }

  /** A message to nobody was not one that is waited for. */
  lemma StrayPromised(dests: Dests, net: Net, m: Message, i: nat, k: nat, id: string, after: State)
    requires WellFormed(dests, net) && m in net.inflight && i < |dests| && k < |dests[i]| && Destination(dests, m) == |dests|
    requires Promised(dests, net, i, k, id)
    ensures Promised(dests, AfterReceive(net, |dests|, m, after, false), i, k, id)
  {
    if InFlight(net.inflight, i, k, id) && dests[i][k] < |dests| {
      var x :| x in net.inflight && x.src == i && x.entry == k && x.event.id == id;
      assert x in net.inflight - multiset{m};
    }
  }

  // ---- Whole runs ----

  predicate SoundNode(n: Node) {
    AllHealthy(n.healthy) && n.state.events.Refines()
  }

  ghost predicate Sound(net: Net) {
    forall i :: 0 <= i < |net.nodes| ==> SoundNode(net.nodes[i])
  }

  /** A step changes state and health of one cluster at most. */
  lemma SoundUpdate(net: Net, next: Net, j: nat)
    requires Sound(net) && j < |net.nodes| == |next.nodes| && SoundNode(next.nodes[j])
    requires forall i :: 0 <= i < |net.nodes| && i != j ==> next.nodes[i] == net.nodes[i]
    ensures Sound(next)
  {
  }

  lemma SoundLocal(net: Net, t: Task, env: Env, goes: bool)
    requires Sound(net) && t.node < |net.nodes|
    ensures Sound(AfterLocal(net, t, env, Run(Handler, net.nodes[t.node].state, t.event, env), goes))
  {
    assert SoundNode(net.nodes[t.node]);
    RunKeepsLog(Handler, net.nodes[t.node].state, t.event, env);
    SoundUpdate(net, AfterLocal(net, t, env, Run(Handler, net.nodes[t.node].state, t.event, env), goes), t.node);
  }

  lemma SoundReceive(net: Net, dst: nat, m: Message, env: Env, goes: bool)
    requires Sound(net) && dst < |net.nodes|
    ensures Sound(AfterReceive(net, dst, m, Run(Handler, net.nodes[dst].state, m.event, env), goes))
  {
    assert SoundNode(net.nodes[dst]);
    RunKeepsLog(Handler, net.nodes[dst].state, m.event, env);
    SoundUpdate(net, AfterReceive(net, dst, m, Run(Handler, net.nodes[dst].state, m.event, env), goes), dst);
  }

  lemma SoundOther(dests: Dests, net: Net, s: Step)
    requires WellFormed(dests, net) && Enabled(dests, net, s) && Benign(s) && Sound(net)
    requires !s.HandleLocal? && !s.Receive?
    ensures Sound(Next(dests, net, s))
  {
    var next := Next(dests, net, s);
    forall i | 0 <= i < |net.nodes|
      ensures SoundNode(next.nodes[i])
    {
      assert SoundNode(net.nodes[i]);
    }
  }

  lemma SoundStep(dests: Dests, net: Net, s: Step, next: Net)
    requires Takes(dests, net, s, next) && Benign(s) && Sound(net)
    ensures Sound(next)
  {
    match s
    case HandleLocal(t, env, _, goes) => SoundLocal(net, t, env, goes);
    case Receive(m, env, _, goes) =>
      if Destination(dests, m) < |dests| {
        SoundReceive(net, Destination(dests, m), m, env, goes);
      }
    case _ => SoundOther(dests, net, s);
  }

  lemma PromisedReceive(dests: Dests, net: Net, s: Step, next: Net, i: nat, k: nat, id: string)
    requires Takes(dests, net, s, next) && s.Receive? && Benign(s) && Sound(net) && OnlyAccepted(net)
    requires i < |dests| && k < |dests[i]| && Promised(dests, net, i, k, id)
    ensures Promised(dests, next, i, k, id)
  {
    var dst := Destination(dests, s.m);
    MutedIsSame(dests, net, s);
    if dst < |dests| {
      var t := Task(s.m.src, s.m.event);
      assert t in net.accepted && AppliedAt(t.event, net.accepted[t]);
      AcceptedIsRoutable(t.event, net.accepted[t]);
      assert SoundNode(net.nodes[dst]);
      ReceivedIsProcessed(net.nodes[dst].state, s.m.event, s.env);
      ReceivePromised(dests, net, s.m, s.env, i, k, id);
    } else {
      StrayPromised(dests, net, s.m, i, k, id, s.after);
    }
  }

  lemma PromisedOther(dests: Dests, net: Net, s: Step, i: nat, k: nat, id: string)
    requires WellFormed(dests, net) && Enabled(dests, net, s)
    requires s.Submit? || s.HealthChange? || s.ExpireCache? || s.Reset?
    requires i < |dests| && k < |dests[i]| && Promised(dests, net, i, k, id)
    ensures Promised(dests, Next(dests, net, s), i, k, id)
  {
  }

  lemma PromisedStep(dests: Dests, net: Net, s: Step, next: Net, i: nat, k: nat, id: string)
    requires Takes(dests, net, s, next) && Benign(s) && Sound(net) && OnlyAccepted(net)
    requires i < |dests| && k < |dests[i]| && Promised(dests, net, i, k, id)
    ensures Promised(dests, next, i, k, id)
  {
    match s
    case HandleLocal(t, env, _, goes) => LocalPromised(dests, net, t, env, goes, i, k, id);
    case Gate(j) => GatePromised(dests, net, j, i, k, id);
    case Send(j) =>
      assert SoundNode(net.nodes[net.sending[j].node]);
      SendPromised(dests, net, j, i, k, id);
    case Receive(_, _, _, _) => PromisedReceive(dests, net, s, next, i, k, id);
    case _ => PromisedOther(dests, net, s, i, k, id);
  }

  lemma {:induction false} KeepsPromises(dests: Dests, nets: seq<Net>, steps: seq<Step>, n: nat, i: nat, k: nat, id: string)
    requires IsRun(dests, nets, steps) && Initial(dests, nets[0]) && Sound(nets[0]) && AllBenign(steps) && n <= |steps|
    requires i < |dests| && k < |dests[i]|
    ensures WellFormed(dests, nets[n]) && Sound(nets[n]) && Promised(dests, nets[n], i, k, id)
  {
    if n > 0 {
      KeepsPromises(dests, nets, steps, n - 1, i, k, id);
      StepOf(dests, nets, steps, n - 1);
      GossipIsSafe(dests, nets, steps, n - 1);
      SoundStep(dests, nets[n - 1], steps[n - 1], nets[n]);
      PromisedStep(dests, nets[n - 1], steps[n - 1], nets[n], i, k, id);
    }
  }

  /**
   When nothing is left to begin, send or receive, every id that cluster i accepted is processed
   at every cluster behind one of its peer entries.
   */
  lemma EveryoneHears(dests: Dests, nets: seq<Net>, steps: seq<Step>, n: nat, i: nat, k: nat, id: string, d: nat)
    requires IsRun(dests, nets, steps) && Initial(dests, nets[0]) && Sound(nets[0]) && AllBenign(steps) && n <= |steps|
    requires i < |dests| && k < |dests[i]| && dests[i][k] < |dests|
    requires WellFormed(dests, nets[n]) && Measure(nets[n], d) == 0 && nets[n].nodes[i].accepts[id] > 0
    ensures nets[n].nodes[dests[i][k]].state.events.Processed(id)
  {
    var net := nets[n];
    KeepsPromises(dests, nets, steps, n, i, k, id);
    NothingLeft(net, d);
    assert Open(net.casts, i, id) == 0 && Open(net.sending, i, id) == 0;
    assert !InFlight(net.inflight, i, k, id);
  }

  lemma NothingLeft(net: Net, d: nat)
    requires Measure(net, d) == 0
    ensures net.casts == [] && net.sending == [] && net.inflight == multiset{}
  {
    OneLess(|net.requests|, 0, d + 3);
    OneLess(|net.casts|, if net.casts == [] then 0 else 1, d + 2);
    OneLess(|net.sending|, if net.sending == [] then 0 else 1, d + 1);
  }
}
