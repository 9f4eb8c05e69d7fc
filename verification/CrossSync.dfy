/** Broadcasting an event to the healthy peers: a sent-once gate and concurrent deliveries. */
module CrossSync {
  import opened Peers
  import opened Seqs

  /** How one delivery ends: the event cannot be encoded, no response, or an HTTP status. */
  datatype Reply = NotEncoded | NoResponse | Status(code: int)

  datatype Completion = Completion(url: string, reply: Reply)

  predicate Success(r: Reply) {
    r.Status? && 200 <= r.code < 300
  }

  predicate Failure(r: Reply) {
    r.NoResponse? || (r.Status? && r.code >= 500)
  }

  function Settled(p: PeerStatus, r: Reply): PeerStatus {
    if Success(r) then Observed(p, true) else if Failure(r) then Observed(p, false) else p
  }

  function Delivered(peers: Table, c: Completion): Table {
    var f := First(Urls(peers), c.url);
    if f < |peers| then peers[f := Settled(peers[f], c.reply)] else peers
  }

  /** The table after the deliveries complete in this order. */
  function DeliveredAll(peers: Table, cs: seq<Completion>): Table {
    if cs == [] then peers else Delivered(DeliveredAll(peers, cs[..|cs| - 1]), cs[|cs| - 1])
  }

  function Successes(cs: seq<Completion>): nat {
    if cs == [] then 0 else Successes(cs[..|cs| - 1]) + (if Success(cs[|cs| - 1].reply) then 1 else 0)
  }

  function Targets(cs: seq<Completion>): seq<string> {
    seq(|cs|, i requires 0 <= i < |cs| => cs[i].url)
  }

  /** One completion for each URL sent to, in any order. */
  predicate ForHealthy(peers: Table, cs: seq<Completion>) {
    multiset(Targets(cs)) == multiset(Healthy(peers))
  }

  /** The first entry with this URL: the one marks reach. */
  predicate IsFirst(peers: Table, url: string, i: nat)
    requires i < |peers|
  {
    peers[i].url == url && forall j :: 0 <= j < i ==> peers[j].url != url
  }

  /** What a reply does to the entry it is for, code by code; `mine` is false for all other entries. */
  predicate SettledBy(was: PeerStatus, now: PeerStatus, mine: bool, r: Reply) {
    && now.url == was.url
    && if mine && r.Status? && 200 <= r.code < 300 then now.healthy && now.failCount == 0
       else if mine && (r.NoResponse? || (r.Status? && r.code >= 500)) then !now.healthy && now.failCount == was.failCount + 1
       else now == was
  }

  lemma DeliveredSettles(peers: Table, c: Completion, i: nat)
    requires i < |peers|
    ensures |Delivered(peers, c)| == |peers|
    ensures SettledBy(peers[i], Delivered(peers, c)[i], IsFirst(peers, c.url, i), c.reply)
  {
    FirstIsFirst(peers, c.url, i);
  }

  lemma FirstIsFirst(peers: Table, url: string, i: nat)
    requires i < |peers|
    ensures IsFirst(peers, url, i) <==> First(Urls(peers), url) == i
  {
    var f := First(Urls(peers), url);
    assert forall j :: 0 <= j < |peers| ==> Urls(peers)[j] == peers[j].url;
    if IsFirst(peers, url, i) {
      assert f <= i;
    }
  }

  function Accepted(cs: seq<Completion>): set<nat> {
    set k: nat | k < |cs| && cs[k].reply.Status? && 200 <= cs[k].reply.code < 300
  }

  /** The successes are the replies with a status from 200 to 299. */
  lemma {:induction false} SuccessesAreAccepted(cs: seq<Completion>)
    ensures Successes(cs) == |Accepted(cs)|
  {
    if cs != [] {
      var n := |cs| - 1;
      SuccessesAreAccepted(cs[..n]);
      if Success(cs[n].reply) {
        assert Accepted(cs) == Accepted(cs[..n]) + {n};
      } else {
        assert Accepted(cs) == Accepted(cs[..n]);
      }
    }
  }

  class CrossSyncService {
    const pm: PeerManager
    var sent: set<string>

    constructor (pm: PeerManager)
      ensures this.pm == pm && sent == {}
    {
      this.pm := pm;
      sent := {};
    }

    method SendToPeer(c: Completion) returns (ok: bool)
      modifies pm
      ensures ok <==> c.reply.Status? && 200 <= c.reply.code < 300
      ensures pm.peers == Delivered(old(pm.peers), c)
      ensures |pm.peers| == |old(pm.peers)|
      ensures forall i :: 0 <= i < |pm.peers| ==>
                            SettledBy(old(pm.peers)[i], pm.peers[i], IsFirst(old(pm.peers), c.url, i), c.reply)
    {
      forall i: nat | i < |pm.peers|
        ensures SettledBy(pm.peers[i], Delivered(pm.peers, c)[i], IsFirst(pm.peers, c.url, i), c.reply)
      {
        DeliveredSettles(pm.peers, c, i);
      }
      match c.reply
      case NotEncoded =>
        return false;
      case NoResponse =>
        pm.MarkUnhealthy(c.url);
        return false;
      case Status(code) =>
        if 200 <= code < 300 {
          pm.MarkHealthy(c.url);
          return true;
        }
        if code >= 500 {
          pm.MarkUnhealthy(c.url);
        }
        return false;
    }

    /** `cs` is the order in which the concurrent deliveries complete, and how each one ends. */
    method Broadcast(id: string, cs: seq<Completion>) returns (successCount: nat)
      requires id !in sent ==> ForHealthy(pm.peers, cs)
      modifies this, pm
      ensures sent == old(sent) + {id}
      ensures id in old(sent) ==> successCount == 0 && pm.peers == old(pm.peers)
      ensures id !in old(sent) ==> successCount == |Accepted(cs)| && pm.peers == DeliveredAll(old(pm.peers), cs)
    {
      if id in sent {
        return 0;
      }
      sent := sent + {id};
      var peers := pm.HealthyPeers();
      if |peers| == 0 {
        assert |multiset(Targets(cs))| == 0;
        SuccessesAreAccepted(cs);
        return 0;
      }
      successCount := 0;
      for i := 0 to |cs|
        invariant successCount == Successes(cs[..i])
        invariant pm.peers == DeliveredAll(old(pm.peers), cs[..i])
        invariant sent == old(sent) + {id}
      {
        assert cs[..i + 1][..i] == cs[..i];
        var ok := SendToPeer(cs[i]);
        if ok {
          successCount := successCount + 1;
        }
      }
      assert cs[..|cs|] == cs;
      SuccessesAreAccepted(cs);
    }

    method Reset()
      modifies this
      ensures sent == {}
    {
      sent := {};
    }
  }

  // ---- The order of completion does not matter ----

  predicate NoDuplicates(urls: seq<string>) {
    forall i, j :: 0 <= i < j < |urls| ==> urls[i] != urls[j]
  }

  /** Entry i after the broadcast: settled by the completion for its URL, if it is the one marks reach. */
  predicate SettledAt(peers: Table, cs: seq<Completion>, i: nat)
    requires i < |peers|
  {
    var after := DeliveredAll(peers, cs);
    && |after| == |peers|
    && (forall k :: 0 <= k < |cs| && IsFirst(peers, cs[k].url, i) ==> SettledBy(peers[i], after[i], true, cs[k].reply))
    && ((forall k :: 0 <= k < |cs| ==> !IsFirst(peers, cs[k].url, i)) ==> after[i] == peers[i])
  }

  lemma {:induction false} DeliveredKeepsUrls(peers: Table, cs: seq<Completion>)
    ensures |DeliveredAll(peers, cs)| == |peers| && Urls(DeliveredAll(peers, cs)) == Urls(peers)
  {
    if cs != [] {
      DeliveredKeepsUrls(peers, cs[..|cs| - 1]);
      assert forall t: Table, c :: Urls(Delivered(t, c)) == Urls(t);
    }
  }

  lemma SameUrls(peers: Table, after: Table, url: string, i: nat)
    requires i < |peers| == |after| && Urls(after) == Urls(peers)
    ensures IsFirst(after, url, i) <==> IsFirst(peers, url, i)
  {
    FirstIsFirst(peers, url, i);
    FirstIsFirst(after, url, i);
  }

  /** 2xx makes healthy; no response or 5xx makes unhealthy; everything else leaves the entry alone. */
  lemma {:induction false} BroadcastClosedForm(peers: Table, cs: seq<Completion>, i: nat)
    requires i < |peers| && NoDuplicates(Targets(cs))
    ensures SettledAt(peers, cs, i)
  {
    DeliveredKeepsUrls(peers, cs);
    if cs != [] {
      var n := |cs| - 1;
      var prev := cs[..n];
      assert forall k :: 0 <= k < |cs| ==> Targets(cs)[k] == cs[k].url;
      assert forall k :: 0 <= k < n ==> Targets(prev)[k] == Targets(cs)[k] && prev[k] == cs[k];
      BroadcastClosedForm(peers, prev, i);
      DeliveredKeepsUrls(peers, prev);
      var before := DeliveredAll(peers, prev);
      DeliveredSettles(before, cs[n], i);
      SameUrls(peers, before, cs[n].url, i);
      if IsFirst(peers, cs[n].url, i) {
        forall k | 0 <= k < n
          ensures !IsFirst(peers, prev[k].url, i)
        {
          assert Targets(cs)[k] != Targets(cs)[n];
        }
        assert before[i] == peers[i];
      }
    }
  }

  lemma {:induction false} SuccessesPermute(a: seq<Completion>, b: seq<Completion>)
    requires multiset(a) == multiset(b)
    ensures Successes(a) == Successes(b)
    decreases |a|
  {
    if a == [] {
      assert |multiset(b)| == 0;
    } else {
      var j := SameWithout(a, b);
      SuccessesPermute(a[..|a| - 1], Without(b, j));
      SuccessesWithout(b, j);
    }
  }

  lemma {:induction false} SuccessesWithout(b: seq<Completion>, j: nat)
    requires j < |b|
    ensures Successes(b) == Successes(Without(b, j)) + (if Success(b[j].reply) then 1 else 0)
    decreases |b|
  {
    var n := |b| - 1;
    var rest := Without(b, j);
    if j == n {
      assert rest == b[..n];
    } else {
      SuccessesWithout(b[..n], j);
      assert rest[..n - 1] == Without(b[..n], j);
    }
  }

  /** Whatever the order of completion, the broadcast counts and marks the same. */
  ghost predicate ScheduleIndependent(peers: Table) {
    forall a, b :: ForHealthy(peers, a) && multiset(a) == multiset(b) ==>
                     Successes(a) == Successes(b) && DeliveredAll(peers, a) == DeliveredAll(peers, b)
  }

  lemma SameSettling(peers: Table, a: seq<Completion>, b: seq<Completion>)
    requires NoDuplicates(Targets(a)) && NoDuplicates(Targets(b)) && multiset(a) == multiset(b)
    ensures DeliveredAll(peers, a) == DeliveredAll(peers, b)
  {
    DeliveredKeepsUrls(peers, a);
    DeliveredKeepsUrls(peers, b);
    forall i: nat | i < |peers|
      ensures DeliveredAll(peers, a)[i] == DeliveredAll(peers, b)[i]
    {
      BroadcastClosedForm(peers, a, i);
      BroadcastClosedForm(peers, b, i);
      if k :| 0 <= k < |a| && IsFirst(peers, a[k].url, i) {
        assert a[k] in multiset(b);
        var m :| 0 <= m < |b| && b[m] == a[k];
      } else {
        forall m | 0 <= m < |b|
          ensures !IsFirst(peers, b[m].url, i)
        {
          assert b[m] in multiset(a);
          var k :| 0 <= k < |a| && a[k] == b[m];
        }
      }
    }
  }

  lemma {:induction false} NoDuplicatesCount(s: seq<string>)
    ensures NoDuplicates(s) <==> forall u :: multiset(s)[u] <= 1
  {
    if s != [] {
      var n := |s| - 1;
      assert s == s[..n] + [s[n]];
      NoDuplicatesCount(s[..n]);
      assert multiset(s) == multiset(s[..n]) + multiset{s[n]};
      assert NoDuplicates(s) <==> NoDuplicates(s[..n]) && s[n] !in s[..n] by {
        if s[n] in s[..n] {
          var i :| 0 <= i < n && s[..n][i] == s[n];
          assert s[i] == s[n];
        }
      }
      assert forall u :: multiset(s)[u] == multiset(s[..n])[u] + (if u == s[n] then 1 else 0);
      assert s[n] in s[..n] <==> multiset(s[..n])[s[n]] >= 1;
      if forall u :: multiset(s)[u] <= 1 {
        assert multiset(s)[s[n]] <= 1;
        assert forall u :: multiset(s[..n])[u] <= multiset(s)[u];
      }
    }
  }

  /** Deliveries that cannot be encoded leave the table as it is. */
  lemma {:induction false} UnsentChangesNothing(peers: Table, cs: seq<Completion>)
    requires forall k :: 0 <= k < |cs| ==> cs[k].reply.NotEncoded?
    ensures DeliveredAll(peers, cs) == peers
  {
    if cs != [] {
      UnsentChangesNothing(peers, cs[..|cs| - 1]);
    }
  }

  function Unsent(urls: seq<string>): seq<Completion> {
    seq(|urls|, i requires 0 <= i < |urls| => Completion(urls[i], NotEncoded))
  }

  lemma {:induction false} HealthyInTable(peers: Table, url: string)
    requires url in Healthy(peers)
    ensures url in Urls(peers)
  {
    var n := |peers| - 1;
    if peers[n].healthy && peers[n].url == url {
      assert Urls(peers)[n] == url;
    } else {
      HealthyInTable(peers[..n], url);
      var i :| 0 <= i < n && Urls(peers[..n])[i] == url;
      assert Urls(peers)[i] == url;
    }
  }

  lemma LastTwo(peers: Table, rest: seq<Completion>, c: Completion, d: Completion)
    requires DeliveredAll(peers, rest) == peers
    ensures DeliveredAll(peers, rest + [c] + [d]) == Delivered(Delivered(peers, c), d)
  {
    assert (rest + [c] + [d])[..|rest| + 1] == rest + [c];
    assert (rest + [c])[..|rest|] == rest;
  }

  lemma LastMarkWins(peers: Table, u: string)
    requires u in Healthy(peers)
    ensures var up, down := Completion(u, Status(200)), Completion(u, Status(500));
            Delivered(Delivered(peers, up), down) != Delivered(Delivered(peers, down), up)
  {
    HealthyInTable(peers, u);
    var up, down := Completion(u, Status(200)), Completion(u, Status(500));
    var f := First(Urls(peers), u);
    assert Urls(Delivered(peers, up)) == Urls(peers) && Urls(Delivered(peers, down)) == Urls(peers);
    assert !Delivered(Delivered(peers, up), down)[f].healthy;
  }

  /** A URL listed twice can be moved, both times, to the end. */
  lemma TwiceAtEnd(h: seq<string>) returns (others: seq<string>, u: string)
    requires !NoDuplicates(h)
    ensures u in h && multiset(others + [u] + [u]) == multiset(h)
  {
    var i, j :| 0 <= i < j < |h| && h[i] == h[j];
    u := h[i];
    WithoutCounts(h, j);
    var once := Without(h, j);
    assert once[i] == u;
    WithoutCounts(once, i);
    others := Without(once, i);
  }

  lemma SwapLast(rest: seq<Completion>, c: Completion, d: Completion)
    ensures multiset(rest + [c] + [d]) == multiset(rest + [d] + [c])
  {
  }

  lemma TargetsOfRace(others: seq<string>, u: string, r: Reply, s: Reply)
    ensures Targets(Unsent(others) + [Completion(u, r)] + [Completion(u, s)]) == others + [u] + [u]
  {
  }

  lemma NotIndependent(peers: Table, a: seq<Completion>, b: seq<Completion>)
    requires ForHealthy(peers, a) && multiset(a) == multiset(b)
    requires DeliveredAll(peers, a) != DeliveredAll(peers, b)
    ensures !ScheduleIndependent(peers)
  {
  }

  /** Two healthy entries with one URL: the mark that comes last wins. */
  lemma DuplicateUrlsRace(peers: Table)
    requires !NoDuplicates(Healthy(peers))
    ensures !ScheduleIndependent(peers)
  {
    var others, u := TwiceAtEnd(Healthy(peers));
    var up, down := Completion(u, Status(200)), Completion(u, Status(500));
    var rest := Unsent(others);
    TargetsOfRace(others, u, Status(200), Status(500));
    SwapLast(rest, up, down);
    UnsentChangesNothing(peers, rest);
    LastTwo(peers, rest, up, down);
    LastTwo(peers, rest, down, up);
    LastMarkWins(peers, u);
    NotIndependent(peers, rest + [up] + [down], rest + [down] + [up]);
  }

  /** Broadcast is schedule-independent exactly when no URL is configured twice among the healthy peers. */
  lemma ScheduleIndependentIff(peers: Table)
    ensures ScheduleIndependent(peers) <==> NoDuplicates(Healthy(peers))
  {
    if NoDuplicates(Healthy(peers)) {
      forall a, b | ForHealthy(peers, a) && multiset(a) == multiset(b)
        ensures Successes(a) == Successes(b) && DeliveredAll(peers, a) == DeliveredAll(peers, b)
      {
        SuccessesPermute(a, b);
        TargetsPermute(a, b);
        NoDuplicatesCount(Healthy(peers));
        NoDuplicatesCount(Targets(a));
        NoDuplicatesCount(Targets(b));
        SameSettling(peers, a, b);
      }
    } else {
      DuplicateUrlsRace(peers);
    }
  }

  lemma {:induction false} TargetsPermute(a: seq<Completion>, b: seq<Completion>)
    requires multiset(a) == multiset(b)
    ensures multiset(Targets(a)) == multiset(Targets(b))
    decreases |a|
  {
    if a == [] {
      assert |multiset(b)| == 0;
    } else {
      var n := |a| - 1;
      var j := SameWithout(a, b);
      TargetsPermute(a[..n], Without(b, j));
      assert Targets(a) == Targets(a[..n]) + [a[n].url];
      WithoutCounts(Targets(b), j);
      assert Without(Targets(b), j) == Targets(Without(b, j));
    }
  }
}
