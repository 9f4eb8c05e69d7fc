/**
 N clusters that pass events on to their peers. A cluster broadcasts only what its local API
 submitted and it applied, each event once between resets unless a reset overtakes a broadcast;
 what it receives it never passes on.
 Message counts are bounded, and the traffic caused by any set of submissions dies out.
 */
module Gossip {
  import opened EventLog
  import opened Model
  import opened Pipeline
  import opened Seqs
  import opened Wrappers

  /**
   `emitted` counts, since the last reset, the messages per event id and peer entry; `stale` are the
   broadcasts that were past the gate but not sent when that reset came. `ever` counts the messages,
   and `accepts` the events that went on to a broadcast per id, since the start.
   */
  datatype Node = Node(
    state: State,
    sent: set<string>,
    healthy: seq<bool>,
    emitted: multiset<(string, nat)>,
    stale: seq<Task>,
    ever: multiset<(string, nat)>,
    accepts: multiset<string>
  )

  /** A message from peer entry `entry` of cluster `src`. */
  datatype Message = Message(src: nat, entry: nat, event: Event)

  datatype Task = Task(node: nat, event: Event)

  /** The state of the cluster, and what its dependencies answered, when it handled an event. */
  datatype Moment = Moment(state: State, env: Env)

  /**
   `requests`: submissions not yet handled; `casts`: broadcasts not yet begun; `sending`: broadcasts
   past the gate; `accepted`: history of the tasks that went on to a broadcast, and when they did;
   `sentTotal` and `submitted`: totals since the start.
   */
  datatype Net = Net(
    nodes: seq<Node>,
    requests: multiset<Task>,
    casts: seq<Task>,
    sending: seq<Task>,
    inflight: multiset<Message>,
    tasks: set<Task>,
    accepted: map<Task, Moment>,
    submitted: nat,
    sentTotal: nat
  )

  /** `after` and `goes` are what the pipeline makes of the event; `Faithful` says so. */
  datatype Step =
    | Submit(t: Task)
    | HandleLocal(t: Task, env: Env, after: State, goes: bool)
    | Gate(k: nat)
    | Send(k: nat)
    | Receive(m: Message, env: Env, after: State, goes: bool)
    | Lose(m: Message)
    | HealthChange(i: nat, healthy: seq<bool>)
    | ExpireCache(i: nat)
    | Reset(i: nat)

  /** dests[i][k] is the cluster behind peer entry k of cluster i; an unknown one for a dead URL. */
  type Dests = seq<seq<nat>>

  predicate WellFormed(dests: Dests, net: Net) {
    && |net.nodes| == |dests|
    && (forall i :: 0 <= i < |dests| ==> |net.nodes[i].healthy| == |dests[i]|)
    && (forall t :: t in net.requests ==> t.node < |dests|)
    && (forall k :: 0 <= k < |net.casts| ==> net.casts[k].node < |dests|)
    && (forall k :: 0 <= k < |net.sending| ==> net.sending[k].node < |dests|)
  }

  predicate Enabled(dests: Dests, net: Net, s: Step) {
    match s
    case Submit(t) => t.node < |dests|
    case HandleLocal(t, _, _, _) => t in net.requests
    case Gate(k) => k < |net.casts|
    case Send(k) => k < |net.sending|
    case Receive(m, _, _, _) => m in net.inflight
    case Lose(m) => m in net.inflight
    case HealthChange(i, healthy) => i < |dests| && |healthy| == |dests[i]|
    case ExpireCache(i) => i < |dests|
    case Reset(i) => i < |dests|
  }

  /** Where a message goes: |dests| if nobody answers there. */
  function Destination(dests: Dests, m: Message): nat {
    if m.src < |dests| && m.entry < |dests[m.src]| && dests[m.src][m.entry] < |dests| then dests[m.src][m.entry] else |dests|
  }

  /** Whether ProcessEvent starts a broadcast. */
  predicate Broadcasts(s: State, e: Event, local: bool, env: Env) {
    local && OutcomeOf(Handler, s, e, env).Applied?
  }

  /** The cluster handles the event as its pipeline does. */
  predicate Faithful(dests: Dests, net: Net, s: Step)
    requires WellFormed(dests, net) && Enabled(dests, net, s)
  {
    match s
    case HandleLocal(t, env, after, goes) =>
      var state := net.nodes[t.node].state;
      after == Run(Handler, state, t.event, env) && goes == Broadcasts(state, t.event, true, env)
    case Receive(m, env, after, goes) =>
      var dst := Destination(dests, m);
      dst < |dests| ==>
        var state := net.nodes[dst].state;
        after == Run(Handler, state, m.event, env) && goes == Broadcasts(state, m.event, false, env)
    case _ => true
  }

  /** One message per healthy peer entry. */
  function Fanout(src: nat, e: Event, healthy: seq<bool>): multiset<Message> {
    if healthy == [] then multiset{}
    else
      var k := |healthy| - 1;
      Fanout(src, e, healthy[..k]) + (if healthy[k] then multiset{Message(src, k, e)} else multiset{})
  }

  function Tally(id: string, healthy: seq<bool>): multiset<(string, nat)> {
    if healthy == [] then multiset{}
    else
      var k := |healthy| - 1;
      Tally(id, healthy[..k]) + (if healthy[k] then multiset{(id, k)} else multiset{})
  }

  function WithNode(net: Net, i: nat, n: Node): Net
    requires i < |net.nodes|
  {
    net.(nodes := net.nodes[i := n])
  }

  function AfterLocal(net: Net, t: Task, env: Env, after: State, goes: bool): Net
    requires t.node < |net.nodes|
  {
    var n := net.nodes[t.node];
    var rest := net.requests - multiset{t};
    if goes then
      WithNode(net, t.node, n.(state := after, accepts := n.accepts + multiset{t.event.id})).(
        requests := rest, casts := net.casts + [t], accepted := net.accepted[t := Moment(n.state, env)])
    else WithNode(net, t.node, n.(state := after)).(requests := rest)
  }

  /** The sent-once gate: a set that is read and written in one go. */
  function AfterGate(net: Net, k: nat): Net
    requires k < |net.casts| && net.casts[k].node < |net.nodes|
  {
    var t := net.casts[k];
    var n := net.nodes[t.node];
    var done := net.(casts := Without(net.casts, k));
    if t.event.id in n.sent then done
    else WithNode(done, t.node, n.(sent := n.sent + {t.event.id})).(sending := net.sending + [t])
  }

  /** One message to each peer that is healthy by now. */
  function AfterSend(net: Net, k: nat): Net
    requires k < |net.sending| && net.sending[k].node < |net.nodes|
  {
    var t := net.sending[k];
    var n := net.nodes[t.node];
    var out := Fanout(t.node, t.event, n.healthy);
    var tally := Tally(t.event.id, n.healthy);
    WithNode(net, t.node, n.(emitted := n.emitted + tally, ever := n.ever + tally)).(
      sending := Without(net.sending, k),
      inflight := net.inflight + out,
      sentTotal := net.sentTotal + |out|)
  }

  function AfterReceive(net: Net, dst: nat, m: Message, after: State, goes: bool): Net {
    var rest := net.(inflight := net.inflight - multiset{m});
    if dst >= |net.nodes| then rest
    else
      WithNode(rest, dst, net.nodes[dst].(state := after)).(
        casts := if goes then net.casts + [Task(dst, m.event)] else net.casts)
  }

  /** The sent set is forgotten; broadcasts past the gate go on. */
  function AfterReset(net: Net, i: nat): Net
    requires i < |net.nodes|
  {
    WithNode(net, i, net.nodes[i].(sent := {}, emitted := multiset{}, stale := net.sending))
  }

  function Next(dests: Dests, net: Net, s: Step): (next: Net)
    requires WellFormed(dests, net) && Enabled(dests, net, s)
    ensures |next.nodes| == |net.nodes|
  {
    match s
    case Submit(t) =>
      net.(requests := net.requests + multiset{t}, tasks := net.tasks + {t}, submitted := net.submitted + 1)
    case HandleLocal(t, env, after, goes) => AfterLocal(net, t, env, after, goes)
    case Gate(k) => AfterGate(net, k)
    case Send(k) => AfterSend(net, k)
    case Receive(m, _, after, goes) => AfterReceive(net, Destination(dests, m), m, after, goes)
    case Lose(m) => net.(inflight := net.inflight - multiset{m})
    case HealthChange(i, healthy) => WithNode(net, i, net.nodes[i].(healthy := healthy))
    case ExpireCache(i) =>
      var state := net.nodes[i].state;
      WithNode(net, i, net.nodes[i].(state := state.(events := state.events.(cache := {}))))
    case Reset(i) => AfterReset(net, i)
  }

  predicate Takes(dests: Dests, net: Net, s: Step, next: Net) {
    && WellFormed(dests, net) && Enabled(dests, net, s) && Faithful(dests, net, s)
    && next == Next(dests, net, s) && WellFormed(dests, next)
  }

  predicate TakesAt(dests: Dests, nets: seq<Net>, steps: seq<Step>, k: nat) {
    k < |steps| < |nets| && Takes(dests, nets[k], steps[k], nets[k + 1])
  }

  ghost predicate IsRun(dests: Dests, nets: seq<Net>, steps: seq<Step>) {
    && |nets| == |steps| + 1 && WellFormed(dests, nets[0])
    && forall k :: 0 <= k < |steps| ==> TakesAt(dests, nets, steps, k)
  }

  lemma StepOf(dests: Dests, nets: seq<Net>, steps: seq<Step>, k: nat)
    requires IsRun(dests, nets, steps) && k < |steps|
    ensures Takes(dests, nets[k], steps[k], nets[k + 1])
  {
    assert TakesAt(dests, nets, steps, k);
  }

  lemma NetOf(dests: Dests, nets: seq<Net>, steps: seq<Step>, k: nat)
    requires IsRun(dests, nets, steps) && k <= |steps|
    ensures WellFormed(dests, nets[k])
  {
    if k > 0 {
      StepOf(dests, nets, steps, k - 1);
    }
  }

  predicate Initial(dests: Dests, net: Net) {
    && WellFormed(dests, net)
    && net.requests == multiset{} && net.casts == [] && net.sending == [] && net.inflight == multiset{}
    && net.tasks == {} && net.accepted == map[] && net.submitted == 0 && net.sentTotal == 0
    && (forall i :: 0 <= i < |net.nodes| ==>
          var n := net.nodes[i];
          n.sent == {} && n.emitted == multiset{} && n.stale == [] && n.ever == multiset{} && n.accepts == multiset{})
  }

  // ---- What the pipeline contributes ----

  /** What a cluster receives from a peer it never passes on. */
  predicate Quiet(s: Step) {
    s.Receive? ==> !s.goes
  }

  predicate AppliedAt(e: Event, m: Moment) {
    Check(e).Allowed() && OutcomeOf(Handler, m.state, e, m.env).Applied?
  }

  /** What goes on to a broadcast is allowed, and was applied just before. */
  predicate Lawful(net: Net, s: Step) {
    s.HandleLocal? && s.goes ==> s.t.node < |net.nodes| && AppliedAt(s.t.event, Moment(net.nodes[s.t.node].state, s.env))
  }

  lemma PipelineGates(dests: Dests, net: Net, s: Step)
    requires WellFormed(dests, net) && Enabled(dests, net, s) && Faithful(dests, net, s)
    requires s.Receive? ==> Destination(dests, s.m) < |dests|
    ensures Quiet(s) && Lawful(net, s)
  {
  }

  /** A message nobody answers has no effect, so it may as well be quiet. */
  function Muted(dests: Dests, s: Step): Step {
    if s.Receive? && Destination(dests, s.m) >= |dests| then s.(goes := false) else s
  }

  lemma MutedIsSame(dests: Dests, net: Net, s: Step)
    requires WellFormed(dests, net) && Enabled(dests, net, s) && Faithful(dests, net, s)
    ensures Enabled(dests, net, Muted(dests, s)) && Next(dests, net, Muted(dests, s)) == Next(dests, net, s)
    ensures Quiet(Muted(dests, s)) && Lawful(net, Muted(dests, s))
  {
    if s.Receive? && Destination(dests, s.m) >= |dests| {
    } else {
      PipelineGates(dests, net, s);
    }
  }

  // ---- Fan-out ----

  lemma {:induction false} TallyCounts(id: string, healthy: seq<bool>, key: (string, nat))
    ensures Tally(id, healthy)[key] == if key.0 == id && key.1 < |healthy| && healthy[key.1] then 1 else 0
  {
    if healthy != [] {
      TallyCounts(id, healthy[..|healthy| - 1], key);
    }
  }

  lemma {:induction false} FanoutMembers(src: nat, e: Event, healthy: seq<bool>)
    ensures forall m :: m in Fanout(src, e, healthy) ==>
                          m.src == src && m.event == e && m.entry < |healthy| && healthy[m.entry]
    ensures |Fanout(src, e, healthy)| <= |healthy|
  {
    if healthy != [] {
      FanoutMembers(src, e, healthy[..|healthy| - 1]);
    }
  }

  // ---- Safety ----

  /** How many of these broadcasts are of this id at cluster i. */
  function Open(ts: seq<Task>, i: nat, id: string): nat {
    if ts == [] then 0
    else Open(ts[..|ts| - 1], i, id) + (if ts[|ts| - 1].node == i && ts[|ts| - 1].event.id == id then 1 else 0)
  }

  lemma OpenMore(ts: seq<Task>, t: Task, i: nat, id: string)
    ensures Open(ts + [t], i, id) == Open(ts, i, id) + (if t.node == i && t.event.id == id then 1 else 0)
  {
    assert (ts + [t])[..|ts|] == ts;
  }

  lemma {:induction false} OpenLess(ts: seq<Task>, k: nat, i: nat, id: string)
    requires k < |ts|
    ensures Open(ts, i, id) == Open(Without(ts, k), i, id) + (if ts[k].node == i && ts[k].event.id == id then 1 else 0)
  {
    var n := |ts| - 1;
    if k == n {
      assert Without(ts, k) == ts[..n];
    } else {
      OpenLess(ts[..n], k, i, id);
      assert Without(ts, k) == Without(ts[..n], k) + [ts[n]];
      OpenMore(Without(ts[..n], k), ts[n], i, id);
    }
  }

  /**
   Since its last reset a cluster has emitted, or is about to, at most one message per event id and
   peer entry; broadcasts that were past the gate when the reset came are extra.
   */
  predicate Once(n: Node, sending: seq<Task>, i: nat, key: (string, nat)) {
    n.emitted[key] + Open(sending, i, key.0) <= (if key.0 in n.sent then 1 else 0) + Open(n.stale, i, key.0)
  }

  /** Whatever is accepted was submitted, and was allowed and applied at its moment. */
  ghost predicate Approved(accepted: map<Task, Moment>, tasks: set<Task>) {
    forall t :: t in accepted ==> t in tasks && AppliedAt(t.event, accepted[t])
  }

  lemma ApproveOne(accepted: map<Task, Moment>, tasks: set<Task>, t: Task, m: Moment)
    requires Approved(accepted, tasks) && t in tasks && AppliedAt(t.event, m)
    ensures Approved(accepted[t := m], tasks)
  {
  }

  lemma ApproveMore(accepted: map<Task, Moment>, tasks: set<Task>, t: Task)
    requires Approved(accepted, tasks)
    ensures Approved(accepted, tasks + {t})
  {
  }

  /** What was accepted was submitted to the cluster, allowed and applied; nothing else is broadcast. */
  ghost predicate OnlyAccepted(net: Net) {
    && (forall k :: 0 <= k < |net.casts| ==> net.casts[k] in net.accepted)
    && (forall k :: 0 <= k < |net.sending| ==> net.sending[k] in net.accepted)
    && (forall m :: m in net.inflight ==> Task(m.src, m.event) in net.accepted)
    && Approved(net.accepted, net.tasks)
    && (forall t :: t in net.requests ==> t in net.tasks)
  }

  predicate OnceAt(net: Net, i: nat, key: (string, nat)) {
    i < |net.nodes| ==> Once(net.nodes[i], net.sending, i, key)
  }

  ghost predicate AllOnce(net: Net) {
    forall i, key :: OnceAt(net, i, key)
  }

  ghost predicate Safe(net: Net) {
    AllOnce(net) && OnlyAccepted(net)
  }

  /** Only state and health have changed. */
  predicate SameBooks(n: Node, n': Node) {
    n' == n.(state := n'.state, healthy := n'.healthy)
  }

  /** The steps that open, pass and close no broadcast. */
  lemma OtherBooks(dests: Dests, net: Net, s: Step, i: nat)
    requires WellFormed(dests, net) && Enabled(dests, net, s) && i < |dests| && Quiet(s)
    requires s.Submit? || s.Receive? || s.Lose? || s.HealthChange? || s.ExpireCache?
    ensures var next := Next(dests, net, s);
            next.sending == net.sending && next.casts == net.casts && SameBooks(net.nodes[i], next.nodes[i])
  {
  }

  lemma GateOnce(net: Net, k: nat, i: nat, key: (string, nat))
    requires k < |net.casts| && net.casts[k].node < |net.nodes| && i < |net.nodes| && OnceAt(net, i, key)
    ensures OnceAt(AfterGate(net, k), i, key)
  {
    OpenMore(net.sending, net.casts[k], i, key.0);
  }

  lemma SendOnce(net: Net, k: nat, i: nat, key: (string, nat))
    requires k < |net.sending| && net.sending[k].node < |net.nodes| && i < |net.nodes| && OnceAt(net, i, key)
    ensures OnceAt(AfterSend(net, k), i, key)
  {
    OpenLess(net.sending, k, i, key.0);
    TallyCounts(net.sending[k].event.id, net.nodes[net.sending[k].node].healthy, key);
  }

  lemma LocalOnce(net: Net, t: Task, env: Env, after: State, goes: bool, i: nat, key: (string, nat))
    requires t.node < |net.nodes| && i < |net.nodes| && OnceAt(net, i, key)
    ensures OnceAt(AfterLocal(net, t, env, after, goes), i, key)
  {
  }

  lemma ResetOnce(net: Net, j: nat, i: nat, key: (string, nat))
    requires j < |net.nodes| && i < |net.nodes| && OnceAt(net, i, key)
    ensures OnceAt(AfterReset(net, j), i, key)
  {
  }

  lemma OnceStep(dests: Dests, net: Net, s: Step, i: nat, key: (string, nat))
    requires WellFormed(dests, net) && Enabled(dests, net, s) && Quiet(s) && i < |dests| && OnceAt(net, i, key)
    ensures OnceAt(Next(dests, net, s), i, key)
  {
    match s
    case HandleLocal(t, env, after, goes) => LocalOnce(net, t, env, after, goes, i, key);
    case Gate(k) => GateOnce(net, k, i, key);
    case Send(k) => SendOnce(net, k, i, key);
    case Reset(j) => ResetOnce(net, j, i, key);
    case _ => OtherBooks(dests, net, s, i);
  }

  lemma AllOnceStep(dests: Dests, net: Net, s: Step)
    requires WellFormed(dests, net) && Enabled(dests, net, s) && Quiet(s) && AllOnce(net)
    ensures AllOnce(Next(dests, net, s))
  {
    var next := Next(dests, net, s);
    forall i: nat, key: (string, nat)
      ensures OnceAt(next, i, key)
    {
      if i < |dests| {
        OnceStep(dests, net, s, i, key);
      }
    }
  }

  lemma WithoutMembers(ts: seq<Task>, k: nat)
    requires k < |ts|
    ensures forall j :: 0 <= j < |Without(ts, k)| ==> Without(ts, k)[j] in ts
  {
    forall j | 0 <= j < |ts| - 1
      ensures Without(ts, k)[j] in ts
    {
      assert Without(ts, k)[j] == ts[if j < k then j else j + 1];
    }
  }

  lemma AcceptedGate(net: Net, k: nat)
    requires k < |net.casts| && net.casts[k].node < |net.nodes| && OnlyAccepted(net)
    ensures OnlyAccepted(AfterGate(net, k))
  {
    WithoutMembers(net.casts, k);
  }

  lemma SendEmits(net: Net, k: nat)
    requires k < |net.sending| && net.sending[k].node < |net.nodes|
    ensures forall m :: m in AfterSend(net, k).inflight ==> m in net.inflight || Task(m.src, m.event) == net.sending[k]
  {
    var t := net.sending[k];
    var out := Fanout(t.node, t.event, net.nodes[t.node].healthy);
    FanoutMembers(t.node, t.event, net.nodes[t.node].healthy);
    assert AfterSend(net, k).inflight == net.inflight + out;
  }

  lemma AcceptedSend(net: Net, k: nat)
    requires k < |net.sending| && net.sending[k].node < |net.nodes| && OnlyAccepted(net)
    ensures OnlyAccepted(AfterSend(net, k))
  {
    WithoutMembers(net.sending, k);
    SendEmits(net, k);
  }

  lemma AcceptedLocal(net: Net, t: Task, env: Env, after: State, goes: bool)
    requires t.node < |net.nodes| && t in net.requests && OnlyAccepted(net)
    requires goes ==> Approved(net.accepted[t := Moment(net.nodes[t.node].state, env)], net.tasks)
    ensures OnlyAccepted(AfterLocal(net, t, env, after, goes))
  {
    var next := AfterLocal(net, t, env, after, goes);
    forall k | 0 <= k < |next.casts|
      ensures next.casts[k] in next.accepted
    {
      assert k < |net.casts| ==> next.casts[k] == net.casts[k];
    }
    assert forall x :: x in next.requests ==> x in net.requests;
  }

  lemma AcceptedReceive(net: Net, dst: nat, m: Message, after: State)
    requires m in net.inflight && OnlyAccepted(net)
    ensures OnlyAccepted(AfterReceive(net, dst, m, after, false))
  {
    assert forall x :: x in net.inflight - multiset{m} ==> x in net.inflight;
  }

  lemma AcceptedStep(dests: Dests, net: Net, s: Step)
    requires WellFormed(dests, net) && Enabled(dests, net, s) && Quiet(s) && Lawful(net, s) && OnlyAccepted(net)
    ensures OnlyAccepted(Next(dests, net, s))
  {
    match s
    case HandleLocal(t, env, after, goes) =>
      if goes {
        ApproveOne(net.accepted, net.tasks, t, Moment(net.nodes[t.node].state, env));
      }
      AcceptedLocal(net, t, env, after, goes);
    case Gate(k) => AcceptedGate(net, k);
    case Send(k) => AcceptedSend(net, k);
    case Receive(m, _, after, _) => AcceptedReceive(net, Destination(dests, m), m, after);
    case _ => AcceptedOther(dests, net, s);
  }

  lemma AcceptedOther(dests: Dests, net: Net, s: Step)
    requires WellFormed(dests, net) && Enabled(dests, net, s) && OnlyAccepted(net)
    requires s.Submit? || s.Lose? || s.HealthChange? || s.ExpireCache? || s.Reset?
    ensures OnlyAccepted(Next(dests, net, s))
  {
    if s.Submit? {
      ApproveMore(net.accepted, net.tasks, s.t);
    }
  }

  /**
   In every run each cluster emits at most one message per peer entry and event id between resets,
   not counting broadcasts a reset overtook, and only for an event submitted to it, allowed and applied.
   */
  lemma {:induction false} GossipIsSafe(dests: Dests, nets: seq<Net>, steps: seq<Step>, n: nat)
    requires IsRun(dests, nets, steps) && Initial(dests, nets[0]) && n <= |steps|
    ensures Safe(nets[n])
  {
    if n > 0 {
      var net, s := nets[n - 1], steps[n - 1];
      GossipIsSafe(dests, nets, steps, n - 1);
      StepOf(dests, nets, steps, n - 1);
      MutedIsSame(dests, net, s);
      AllOnceStep(dests, net, Muted(dests, s));
      AcceptedStep(dests, net, Muted(dests, s));
    }
  }

  // ---- How often an event is broadcast ----

  /** What a cluster has emitted and is about to is paid for by events it accepted. */
  predicate Paid(net: Net, i: nat, key: (string, nat))
    requires i < |net.nodes|
  {
    net.nodes[i].ever[key] + Open(net.sending, i, key.0) + Open(net.casts, i, key.0) <= net.nodes[i].accepts[key.0]
  }

  lemma GatePaid(net: Net, k: nat, i: nat, key: (string, nat))
    requires k < |net.casts| && net.casts[k].node < |net.nodes| && i < |net.nodes| && Paid(net, i, key)
    ensures Paid(AfterGate(net, k), i, key)
  {
    OpenLess(net.casts, k, i, key.0);
    OpenMore(net.sending, net.casts[k], i, key.0);
  }

  lemma SendPaid(net: Net, k: nat, i: nat, key: (string, nat))
    requires k < |net.sending| && net.sending[k].node < |net.nodes| && i < |net.nodes| && Paid(net, i, key)
    ensures Paid(AfterSend(net, k), i, key)
  {
    OpenLess(net.sending, k, i, key.0);
    TallyCounts(net.sending[k].event.id, net.nodes[net.sending[k].node].healthy, key);
  }

  lemma LocalPaid(net: Net, t: Task, env: Env, after: State, goes: bool, i: nat, key: (string, nat))
    requires t.node < |net.nodes| && i < |net.nodes| && Paid(net, i, key)
    ensures Paid(AfterLocal(net, t, env, after, goes), i, key)
  {
    OpenMore(net.casts, t, i, key.0);
  }

  lemma PaidStep(dests: Dests, net: Net, s: Step, i: nat, key: (string, nat))
    requires WellFormed(dests, net) && Enabled(dests, net, s) && Quiet(s) && i < |dests| && Paid(net, i, key)
    ensures Paid(Next(dests, net, s), i, key)
  {
    match s
    case HandleLocal(t, env, after, goes) => LocalPaid(net, t, env, after, goes, i, key);
    case Gate(k) => GatePaid(net, k, i, key);
    case Send(k) => SendPaid(net, k, i, key);
    case Reset(_) =>
    case _ => OtherBooks(dests, net, s, i);
  }

  lemma NothingToPay(dests: Dests, net: Net, i: nat, key: (string, nat))
    requires Initial(dests, net) && i < |dests|
    ensures Paid(net, i, key)
  {
  }

  /** In every run, resets or not: at most one message per peer entry for each time the event was accepted. */
  lemma {:induction false} AcceptancesPay(dests: Dests, nets: seq<Net>, steps: seq<Step>, n: nat, i: nat, key: (string, nat))
    requires IsRun(dests, nets, steps) && Initial(dests, nets[0]) && n <= |steps| && i < |dests|
    ensures WellFormed(dests, nets[n]) && Paid(nets[n], i, key)
  {
    if n > 0 {
      var net, s := nets[n - 1], steps[n - 1];
      StepOf(dests, nets, steps, n - 1);
      AcceptancesPay(dests, nets, steps, n - 1, i, key);
      MutedIsSame(dests, net, s);
      PaidStep(dests, net, Muted(dests, s), i, key);
    } else {
      NothingToPay(dests, nets[0], i, key);
    }
  }

  /** Log rows of submitted events can be written. */
  predicate Recorded(steps: seq<Step>) {
    forall k :: 0 <= k < |steps| && steps[k].HandleLocal? ==> steps[k].env.mark.logWriteOk
  }

  predicate AcceptedOnce(n: Node, id: string) {
    n.accepts[id] <= if n.state.events.Processed(id) then 1 else 0
  }

  lemma LocalAcceptedOnce(net: Net, t: Task, env: Env, after: State, goes: bool, i: nat, id: string)
    requires t.node < |net.nodes| && i < |net.nodes| && env.mark.logWriteOk && AcceptedOnce(net.nodes[i], id)
    requires var state := net.nodes[t.node].state;
             after == Run(Handler, state, t.event, env) && goes == Broadcasts(state, t.event, true, env)
    ensures AcceptedOnce(AfterLocal(net, t, env, after, goes).nodes[i], id)
  {
    RunKeepsProcessed(Handler, net.nodes[t.node].state, t.event, env);
  }

  lemma ReceiveAcceptedOnce(net: Net, dst: nat, m: Message, env: Env, i: nat, id: string)
    requires dst < |net.nodes| && i < |net.nodes| && AcceptedOnce(net.nodes[i], id)
    ensures AcceptedOnce(AfterReceive(net, dst, m, Run(Handler, net.nodes[dst].state, m.event, env), false).nodes[i], id)
  {
    RunKeepsProcessed(Handler, net.nodes[dst].state, m.event, env);
  }

  lemma AcceptedOnceStep(dests: Dests, net: Net, s: Step, i: nat, id: string)
    requires WellFormed(dests, net) && Enabled(dests, net, s) && Faithful(dests, net, s) && i < |dests|
    requires (s.HandleLocal? ==> s.env.mark.logWriteOk) && AcceptedOnce(net.nodes[i], id)
    ensures AcceptedOnce(Next(dests, net, s).nodes[i], id)
  {
    match s
    case HandleLocal(t, env, after, goes) => LocalAcceptedOnce(net, t, env, after, goes, i, id);
    case Receive(m, env, after, goes) =>
      if Destination(dests, m) < |dests| {
        assert !goes;
        ReceiveAcceptedOnce(net, Destination(dests, m), m, env, i, id);
      }
    case _ =>
  }

  lemma NoneAccepted(dests: Dests, net: Net, i: nat, id: string)
    requires Initial(dests, net) && i < |dests|
    ensures AcceptedOnce(net.nodes[i], id)
  {
  }

  /** If log rows are written, a cluster accepts an id at most once in the whole run, whatever resets come. */
  lemma {:induction false} AcceptOnce(dests: Dests, nets: seq<Net>, steps: seq<Step>, n: nat, i: nat, id: string)
    requires IsRun(dests, nets, steps) && Initial(dests, nets[0]) && n <= |steps| && i < |dests| && Recorded(steps)
    ensures WellFormed(dests, nets[n]) && AcceptedOnce(nets[n].nodes[i], id)
  {
    if n > 0 {
      AcceptOnce(dests, nets, steps, n - 1, i, id);
      StepOf(dests, nets, steps, n - 1);
      AcceptedOnceStep(dests, nets[n - 1], steps[n - 1], i, id);
    } else {
      NoneAccepted(dests, nets[0], i, id);
    }
  }

  /** It then sends at most one message for it to each peer entry, ever. */
  lemma OnceEver(dests: Dests, nets: seq<Net>, steps: seq<Step>, n: nat, i: nat, key: (string, nat))
    requires IsRun(dests, nets, steps) && Initial(dests, nets[0]) && n <= |steps| && i < |dests| && Recorded(steps)
    ensures WellFormed(dests, nets[n]) && nets[n].nodes[i].ever[key] <= 1
  {
    AcceptancesPay(dests, nets, steps, n, i, key);
    AcceptOnce(dests, nets, steps, n, i, key.0);
  }

  /** Without that: one message, and one for each broadcast the last reset overtook. */
  lemma OnceBounds(n: Node, sending: seq<Task>, i: nat, key: (string, nat))
    requires Once(n, sending, i, key)
    ensures n.emitted[key] <= 1 + Open(n.stale, i, key.0)
  {
  }

  // ---- A lost record and an overtaking reset: two messages ----

  lemma GateWellFormed(dests: Dests, net: Net, k: nat)
    requires WellFormed(dests, net) && k < |net.casts|
    ensures WellFormed(dests, AfterGate(net, k))
  {
    WithoutMembers(net.casts, k);
  }

  lemma SendWellFormed(dests: Dests, net: Net, k: nat)
    requires WellFormed(dests, net) && k < |net.sending|
    ensures WellFormed(dests, AfterSend(net, k))
  {
    WithoutMembers(net.sending, k);
  }

  lemma LocalWellFormed(dests: Dests, net: Net, s: Step)
    requires WellFormed(dests, net) && s.HandleLocal? && s.t in net.requests
    ensures WellFormed(dests, AfterLocal(net, s.t, s.env, s.after, s.goes))
  {
  }

  /** The net a run has come to. */
  function Last(nets: seq<Net>): Net
    requires nets != []
  {
    nets[|nets| - 1]
  }

  lemma Go(dests: Dests, nets: seq<Net>, steps: seq<Step>, s: Step, next: Net) returns (nets': seq<Net>, steps': seq<Step>)
    requires IsRun(dests, nets, steps) && Takes(dests, Last(nets), s, next)
    ensures IsRun(dests, nets', steps') && nets'[0] == nets[0] && Last(nets') == next
  {
    nets', steps' := nets + [next], steps + [s];
    forall k | 0 <= k < |steps'|
      ensures TakesAt(dests, nets', steps', k)
    {
      if k < |steps| {
        StepOf(dests, nets, steps, k);
      }
    }
  }

  const UNRECORDED := ALL_UP.(mark := MarkEnv(false, true))

  /** A create that this cluster will apply if its stores work. */
  predicate Acceptable(s: State, e: Event) {
    && !Malformed(Handler, e) && e.etype.PostCreated? && Check(e).Allowed() && Routable(Handler, e)
    && !s.events.Processed(e.id) && e.id !in s.events.cache
  }

  lemma AppliesUnrecorded(s: State, e: Event)
    requires Acceptable(s, e)
    ensures Broadcasts(s, e, true, UNRECORDED) && Acceptable(Run(Handler, s, e, UNRECORDED), e)
  {
  }

  /** What matters of a net for the broadcasts of task t. */
  datatype View = View(casts: seq<Task>, sending: seq<Task>, sent: bool, emitted: nat)

  function ViewOf(net: Net, t: Task): View
    requires t.node < |net.nodes|
  {
    var n := net.nodes[t.node];
    View(net.casts, net.sending, t.event.id in n.sent, n.emitted[(t.event.id, 0)])
  }

  predicate Prepared(dests: Dests, net: Net, t: Task) {
    && WellFormed(dests, net) && t.node < |dests| && |dests[t.node]| > 0 && net.nodes[t.node].healthy[0]
    && Acceptable(net.nodes[t.node].state, t.event)
  }

  /** The event is submitted and applied, but its log row is lost: it can be accepted once more. */
  lemma Accept(dests: Dests, net: Net, t: Task) returns (mid: Net, s: Step, next: Net)
    requires Prepared(dests, net, t)
    ensures Takes(dests, net, Submit(t), mid) && Takes(dests, mid, s, next) && Prepared(dests, next, t)
    ensures ViewOf(next, t) == ViewOf(net, t).(casts := net.casts + [t])
  {
    mid := Next(dests, net, Submit(t));
    var state := mid.nodes[t.node].state;
    AppliesUnrecorded(state, t.event);
    s := HandleLocal(t, UNRECORDED, Run(Handler, state, t.event, UNRECORDED), true);
    LocalWellFormed(dests, mid, s);
    next := AfterLocal(mid, t, UNRECORDED, s.after, true);
  }

  lemma PassGate(dests: Dests, net: Net, t: Task) returns (next: Net)
    requires Prepared(dests, net, t) && net.casts == [t] && !ViewOf(net, t).sent
    ensures Takes(dests, net, Gate(0), next) && Prepared(dests, next, t)
    ensures ViewOf(next, t) == View([], net.sending + [t], true, ViewOf(net, t).emitted)
  {
    GateWellFormed(dests, net, 0);
    next := AfterGate(net, 0);
  }

  lemma Overtake(dests: Dests, net: Net, t: Task) returns (next: Net)
    requires Prepared(dests, net, t)
    ensures Takes(dests, net, Reset(t.node), next) && Prepared(dests, next, t)
    ensures ViewOf(next, t) == View(net.casts, net.sending, false, 0)
  {
    next := AfterReset(net, t.node);
  }

  lemma SendFirst(dests: Dests, net: Net, t: Task) returns (next: Net)
    requires Prepared(dests, net, t) && net.sending != [] && net.sending[0] == t
    ensures Takes(dests, net, Send(0), next) && Prepared(dests, next, t)
    ensures ViewOf(next, t) == ViewOf(net, t).(sending := net.sending[1..], emitted := ViewOf(net, t).emitted + 1)
  {
    SendWellFormed(dests, net, 0);
    TallyCounts(t.event.id, net.nodes[t.node].healthy, (t.event.id, 0));
    next := AfterSend(net, 0);
  }

  /** Accepted and past the gate, then overtaken by the reset. */
  lemma FirstRound(dests: Dests, net: Net, t: Task) returns (nets: seq<Net>, steps: seq<Step>)
    requires Prepared(dests, net, t) && ViewOf(net, t) == View([], [], false, 0)
    ensures IsRun(dests, nets, steps) && nets[0] == net
    ensures Prepared(dests, Last(nets), t) && ViewOf(Last(nets), t) == View([], [t], false, 0)
  {
    var n1, s1, n2 := Accept(dests, net, t);
    var n3 := PassGate(dests, n2, t);
    var n4 := Overtake(dests, n3, t);
    nets, steps := Go(dests, [net], [], Submit(t), n1);
    nets, steps := Go(dests, nets, steps, s1, n2);
    nets, steps := Go(dests, nets, steps, Gate(0), n3);
    nets, steps := Go(dests, nets, steps, Reset(t.node), n4);
  }

  /** Accepted and past the gate again, and both broadcasts sent. */
  lemma SecondRound(dests: Dests, nets: seq<Net>, steps: seq<Step>, t: Task) returns (nets': seq<Net>, steps': seq<Step>)
    requires IsRun(dests, nets, steps)
    requires Prepared(dests, Last(nets), t) && ViewOf(Last(nets), t) == View([], [t], false, 0)
    ensures IsRun(dests, nets', steps') && nets'[0] == nets[0]
    ensures Prepared(dests, Last(nets'), t) && ViewOf(Last(nets'), t) == View([], [], true, 2)
  {
    var n5, s5, n6 := Accept(dests, Last(nets), t);
    var n7 := PassGate(dests, n6, t);
    var n8 := SendFirst(dests, n7, t);
    var n9 := SendFirst(dests, n8, t);
    nets', steps' := Go(dests, nets, steps, Submit(t), n5);
    nets', steps' := Go(dests, nets', steps', s5, n6);
    nets', steps' := Go(dests, nets', steps', Gate(0), n7);
    nets', steps' := Go(dests, nets', steps', Send(0), n8);
    nets', steps' := Go(dests, nets', steps', Send(0), n9);
  }

  /** From any start: two messages for one id to one peer entry within one reset period. */
  lemma TwoMessages(dests: Dests, net: Net, t: Task) returns (nets: seq<Net>, steps: seq<Step>)
    requires Initial(dests, net) && Prepared(dests, net, t)
    ensures IsRun(dests, nets, steps) && nets[0] == net && t.node < |Last(nets).nodes|
    ensures Last(nets).nodes[t.node].emitted[(t.event.id, 0)] == 2
  {
    nets, steps := FirstRound(dests, net, t);
    nets, steps := SecondRound(dests, nets, steps, t);
    assert ViewOf(Last(nets), t).emitted == 2;
  }

  // ---- Termination ----

  predicate Degree(dests: Dests, d: nat) {
    forall i :: 0 <= i < |dests| ==> |dests[i]| <= d
  }

  /** Work left: a request may become a broadcast, which passes the gate and sends up to d messages. */
  function Measure(net: Net, d: nat): nat {
    |net.requests| * (d + 3) + |net.casts| * (d + 2) + |net.sending| * (d + 1) + |net.inflight|
  }

  predicate External(s: Step) {
    s.Submit? || s.HealthChange? || s.ExpireCache? || s.Reset?
  }

  /** How the counts move in one step. */
  predicate Counts(net: Net, next: Net, s: Step, d: nat) {
    match s
    case Submit(_) =>
      && |next.requests| == |net.requests| + 1 && |next.casts| == |net.casts| && |next.sending| == |net.sending|
      && next.submitted == net.submitted + 1 && next.sentTotal == net.sentTotal
    case HandleLocal(_, _, _, _) =>
      && |next.requests| == |net.requests| - 1 && |next.casts| <= |net.casts| + 1 && |next.sending| == |net.sending|
      && |next.inflight| == |net.inflight|
      && next.submitted == net.submitted && next.sentTotal == net.sentTotal
    case Gate(_) =>
      && |next.requests| == |net.requests| && |next.casts| == |net.casts| - 1 && |next.sending| <= |net.sending| + 1
      && |next.inflight| == |net.inflight|
      && next.submitted == net.submitted && next.sentTotal == net.sentTotal
    case Send(_) =>
      && |next.requests| == |net.requests| && |next.casts| == |net.casts| && |next.sending| == |net.sending| - 1
      && |next.inflight| <= |net.inflight| + d
      && next.submitted == net.submitted && next.sentTotal <= net.sentTotal + d
    case _ =>
      && |next.requests| == |net.requests| && |next.casts| == |net.casts| && |next.sending| == |net.sending|
      && |next.inflight| == |net.inflight| - (if External(s) then 0 else 1)
      && next.submitted == net.submitted && next.sentTotal == net.sentTotal
  }

  lemma CountsSend(net: Net, k: nat, d: nat)
    requires k < |net.sending| && net.sending[k].node < |net.nodes| && |net.nodes[net.sending[k].node].healthy| <= d
    ensures Counts(net, AfterSend(net, k), Send(k), d)
  {
    var t := net.sending[k];
    FanoutMembers(t.node, t.event, net.nodes[t.node].healthy);
  }

  lemma CountsGate(net: Net, k: nat, d: nat)
    requires k < |net.casts| && net.casts[k].node < |net.nodes|
    ensures Counts(net, AfterGate(net, k), Gate(k), d)
  {
  }

  lemma CountsLocal(net: Net, s: Step, d: nat)
    requires s.HandleLocal? && s.t.node < |net.nodes| && s.t in net.requests
    ensures Counts(net, AfterLocal(net, s.t, s.env, s.after, s.goes), s, d)
  {
  }

  lemma CountsReceive(net: Net, dst: nat, s: Step, d: nat)
    requires s.Receive? && s.m in net.inflight && !s.goes
    ensures Counts(net, AfterReceive(net, dst, s.m, s.after, false), s, d)
  {
  }

  lemma CountsOther(dests: Dests, net: Net, s: Step, d: nat)
    requires WellFormed(dests, net) && Enabled(dests, net, s)
    requires s.Submit? || s.Lose? || s.HealthChange? || s.ExpireCache? || s.Reset?
    ensures Counts(net, Next(dests, net, s), s, d)
  {
  }

  lemma CountsStep(dests: Dests, net: Net, s: Step, d: nat)
    requires WellFormed(dests, net) && Enabled(dests, net, s) && Quiet(s) && Degree(dests, d)
    ensures Counts(net, Next(dests, net, s), s, d)
  {
    match s
    case HandleLocal(_, _, _, _) => CountsLocal(net, s, d);
    case Gate(k) => CountsGate(net, k, d);
    case Send(k) => CountsSend(net, k, d);
    case Receive(m, _, _, _) => CountsReceive(net, Destination(dests, m), s, d);
    case _ => CountsOther(dests, net, s, d);
  }

  lemma OneLess(k: nat, more: nat, c: nat)
    requires more <= k
    ensures more * c <= k * c
  {
  }

  /** `moved` units of weight w become at most one of weight v and f more. */
  lemma Lighter(k: nat, c: nat, c': nat, w: nat, v: nat)
    requires k > 0 && c' <= c + 1
    ensures (k - 1) * w + c' * v <= k * w + c * v - w + v
  {
    assert k * w == (k - 1) * w + w;
    OneLess(c + 1, c', v);
    assert (c + 1) * v == c * v + v;
  }

  lemma MeasureStep(net: Net, next: Net, s: Step, d: nat)
    requires Counts(net, next, s, d)
    ensures External(s) && !s.Submit? ==> Measure(next, d) == Measure(net, d)
    ensures !External(s) ==> Measure(next, d) < Measure(net, d)
  {
    match s
    case HandleLocal(_, _, _, _) => Lighter(|net.requests|, |net.casts|, |next.casts|, d + 3, d + 2);
    case Gate(_) => Lighter(|net.casts|, |net.sending|, |next.sending|, d + 2, d + 1);
    case Send(_) => assert |net.sending| * (d + 1) == |next.sending| * (d + 1) + (d + 1);
    case _ =>
  }

  predicate NoSubmissions(steps: seq<Step>) {
    forall k :: 0 <= k < |steps| ==> !steps[k].Submit?
  }

  /** The steps that handle, cast, deliver or lose something. */
  function TrafficSteps(steps: seq<Step>): nat {
    if steps == [] then 0 else TrafficSteps(steps[..|steps| - 1]) + (if External(steps[|steps| - 1]) then 0 else 1)
  }

  lemma MeasureKept(dests: Dests, net: Net, s: Step, d: nat)
    requires WellFormed(dests, net) && Enabled(dests, net, s) && Faithful(dests, net, s)
    requires Degree(dests, d) && !s.Submit?
    ensures Measure(Next(dests, net, s), d) + (if External(s) then 0 else 1) <= Measure(net, d)
  {
    MutedIsSame(dests, net, s);
    CountsStep(dests, net, Muted(dests, s), d);
    MeasureStep(net, Next(dests, net, s), Muted(dests, s), d);
  }

  /** Without new submissions there is only so much traffic left, resets or not. */
  lemma {:induction false} GossipDiesOut(dests: Dests, nets: seq<Net>, steps: seq<Step>, d: nat, n: nat)
    requires IsRun(dests, nets, steps) && Degree(dests, d) && NoSubmissions(steps) && n <= |steps|
    ensures TrafficSteps(steps[..n]) + Measure(nets[n], d) <= Measure(nets[0], d)
  {
    if n > 0 {
      GossipDiesOut(dests, nets, steps, d, n - 1);
      assert steps[..n][..n - 1] == steps[..n - 1];
      StepOf(dests, nets, steps, n - 1);
      MeasureKept(dests, nets[n - 1], steps[n - 1], d);
    }
  }

  /** What has been sent, and what may still be sent, is paid for by submissions. */
  predicate Budget(net: Net, d: nat) {
    net.sentTotal + |net.sending| * d + |net.casts| * d + |net.requests| * d <= net.submitted * d
  }

  lemma BudgetStep(net: Net, next: Net, s: Step, d: nat)
    requires Counts(net, next, s, d) && Budget(net, d)
    ensures Budget(next, d)
  {
    match s
    case Submit(_) =>
      assert |next.requests| * d == |net.requests| * d + d;
      assert next.submitted * d == net.submitted * d + d;
    case HandleLocal(_, _, _, _) => Lighter(|net.requests|, |net.casts|, |next.casts|, d, d);
    case Gate(_) => Lighter(|net.casts|, |net.sending|, |next.sending|, d, d);
    case Send(_) => assert |net.sending| * d == |next.sending| * d + d;
    case _ =>
  }

  lemma {:induction false} StaysInBudget(dests: Dests, nets: seq<Net>, steps: seq<Step>, d: nat, n: nat)
    requires IsRun(dests, nets, steps) && Initial(dests, nets[0]) && Degree(dests, d) && n <= |steps|
    ensures Budget(nets[n], d)
  {
    if n == 0 {
      InitialBudget(dests, nets[0], d);
    } else {
      StaysInBudget(dests, nets, steps, d, n - 1);
      StepOf(dests, nets, steps, n - 1);
      BudgetKept(dests, nets[n - 1], steps[n - 1], d);
    }
  }

  /** In all, at most one message per submission and peer entry is ever sent, resets or not. */
  lemma MessagesAreBounded(dests: Dests, nets: seq<Net>, steps: seq<Step>, d: nat, n: nat)
    requires IsRun(dests, nets, steps) && Initial(dests, nets[0]) && Degree(dests, d) && n <= |steps|
    ensures Budget(nets[n], d)
    ensures nets[n].sentTotal <= nets[n].submitted * d
  {
    StaysInBudget(dests, nets, steps, d, n);
    PaidFor(nets[n], d);
  }

  lemma BudgetKept(dests: Dests, net: Net, s: Step, d: nat)
    requires WellFormed(dests, net) && Enabled(dests, net, s) && Faithful(dests, net, s)
    requires Degree(dests, d) && Budget(net, d)
    ensures Budget(Next(dests, net, s), d)
  {
    MutedIsSame(dests, net, s);
    CountsStep(dests, net, Muted(dests, s), d);
    BudgetStep(net, Next(dests, net, s), Muted(dests, s), d);
  }

  lemma InitialBudget(dests: Dests, net: Net, d: nat)
    requires Initial(dests, net)
    ensures Budget(net, d)
  {
    assert 0 * d == 0;
  }

  lemma PaidFor(net: Net, d: nat)
    requires Budget(net, d)
    ensures net.sentTotal <= net.submitted * d
  {
    OneLess(|net.sending|, 0, d);
    OneLess(|net.casts|, 0, d);
    OneLess(|net.requests|, 0, d);
  }
}
