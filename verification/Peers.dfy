/** The peer table: health flags and failure counts, driven by health checks and by delivery marks. */
module Peers {

  datatype PeerStatus = PeerStatus(url: string, healthy: bool, failCount: nat)

  type Table = seq<PeerStatus>

  function Observed(p: PeerStatus, ok: bool): PeerStatus {
    if ok then p.(healthy := true, failCount := 0) else p.(healthy := false, failCount := p.failCount + 1)
  }

  function Urls(peers: Table): seq<string> {
    seq(|peers|, i requires 0 <= i < |peers| => peers[i].url)
  }

  /** The first entry with this URL; |urls| if there is none. */
  function First(urls: seq<string>, url: string): (f: nat)
    ensures f <= |urls|
    ensures f < |urls| ==> urls[f] == url
    ensures forall i :: 0 <= i < f ==> urls[i] != url
  {
    if urls == [] || urls[0] == url then 0 else 1 + First(urls[1..], url)
  }

  /** A mark or a single check reaches the first entry with the URL, and no other. */
  function ObservedAt(peers: Table, url: string, ok: bool): Table {
    var f := First(Urls(peers), url);
    if f < |peers| then peers[f := Observed(peers[f], ok)] else peers
  }

  /** `Sweep` is a health check of all entries, in which entry i answers `oks[i]`. */
  datatype Observation = Sweep(oks: seq<bool>) | One(url: string, ok: bool)

  predicate Fits(n: nat, o: Observation) {
    o.Sweep? ==> |o.oks| == n
  }

  function After(peers: Table, o: Observation): (after: Table)
    requires Fits(|peers|, o)
    ensures Urls(after) == Urls(peers)
  {
    match o
    case Sweep(oks) => seq(|peers|, i requires 0 <= i < |peers| => Observed(peers[i], oks[i]))
    case One(url, ok) => ObservedAt(peers, url, ok)
  }

  function Healthy(peers: Table): seq<string> {
    if peers == [] then []
    else Healthy(peers[..|peers| - 1]) + (if peers[|peers| - 1].healthy then [peers[|peers| - 1].url] else [])
  }

  function Fresh(urls: seq<string>): Table {
    seq(|urls|, i requires 0 <= i < |urls| => PeerStatus(urls[i], true, 0))
  }

  class PeerManager {
    var peers: Table

    constructor (urls: seq<string>)
      ensures peers == Fresh(urls)
    {
      var table: Table := [];
      for i := 0 to |urls|
        invariant |table| == i && forall k :: 0 <= k < i ==> table[k] == PeerStatus(urls[k], true, 0)
      {
        table := table + [PeerStatus(urls[i], true, 0)];
      }
      peers := table;
    }

    method HealthyPeers() returns (result: seq<string>)
      ensures result == Healthy(peers)
    {
      result := [];
      for i := 0 to |peers|
        invariant result == Healthy(peers[..i])
      {
        assert peers[..i + 1][..i] == peers[..i];
        if peers[i].healthy {
          result := result + [peers[i].url];
        }
      }
      assert peers[..|peers|] == peers;
    }

    method AllPeers() returns (result: seq<string>)
      ensures result == Urls(peers)
    {
      result := [];
      for i := 0 to |peers|
        invariant result == Urls(peers)[..i]
      {
        result := result + [peers[i].url];
      }
    }

    /** `oks[i]`: the request to entry i could be made and was answered with status 200. */
    method CheckHealth(oks: seq<bool>)
      requires |oks| == |peers|
      modifies this
      ensures peers == After(old(peers), Sweep(oks))
    {
      for i := 0 to |peers|
        invariant |peers| == |old(peers)|
        invariant forall k :: 0 <= k < i ==> peers[k] == Observed(old(peers[k]), oks[k])
        invariant forall k :: i <= k < |peers| ==> peers[k] == old(peers[k])
      {
        peers := peers[i := Observed(peers[i], oks[i])];
      }
    }

    method Find(url: string) returns (f: nat)
      ensures f == First(Urls(peers), url)
    {
      f := 0;
      while f < |peers| && peers[f].url != url
        invariant 0 <= f <= |peers|
        invariant forall k :: 0 <= k < f ==> Urls(peers)[k] != url
      {
        f := f + 1;
      }
      assert f < |peers| ==> Urls(peers)[f] == url;
    }

    method CheckPeer(url: string, ok: bool) returns (healthy: bool)
      modifies this
      ensures peers == After(old(peers), One(url, ok))
      ensures healthy == (ok && url in Urls(peers))
    {
      var f := Find(url);
      if f < |peers| {
        peers := peers[f := Observed(peers[f], ok)];
        assert Urls(peers)[f] == url;
        return peers[f].healthy;
      }
      assert forall k :: 0 <= k < |peers| ==> Urls(peers)[k] != url;
      return false;
    }

    method MarkUnhealthy(url: string)
      modifies this
      ensures peers == After(old(peers), One(url, false))
    {
      var f := Find(url);
      if f < |peers| {
        peers := peers[f := peers[f].(healthy := false, failCount := peers[f].failCount + 1)];
      }
    }

    method MarkHealthy(url: string)
      modifies this
      ensures peers == After(old(peers), One(url, true))
    {
      var f := Find(url);
      if f < |peers| {
        peers := peers[f := peers[f].(healthy := true, failCount := 0)];
      }
    }
  }

  // ---- The table as a summary of each entry's history ----

  predicate AllFit(n: nat, os: seq<Observation>) {
    forall k :: 0 <= k < |os| ==> Fits(n, os[k])
  }

  function AfterAll(peers: Table, os: seq<Observation>): (after: Table)
    requires AllFit(|peers|, os)
    ensures Urls(after) == Urls(peers) && |after| == |peers|
  {
    if os == [] then peers
    else
      var prev := AfterAll(peers, os[..|os| - 1]);
      assert |Urls(After(prev, os[|os| - 1]))| == |Urls(peers)|;
      After(prev, os[|os| - 1])
  }

  /** The outcomes that reached entry i. */
  function History(urls: seq<string>, os: seq<Observation>, i: nat): seq<bool>
    requires i < |urls| && AllFit(|urls|, os)
  {
    if os == [] then []
    else
      var o := os[|os| - 1];
      History(urls, os[..|os| - 1], i) +
      (match o
       case Sweep(oks) => [oks[i]]
       case One(url, ok) => if First(urls, url) == i then [ok] else [])
  }

  /** How many failures end the history. */
  function Streak(h: seq<bool>): nat {
    if h == [] || h[|h| - 1] then 0 else 1 + Streak(h[..|h| - 1])
  }

  /**
   After any checks and marks, entry i still has its URL, its fail count is the length of its
   current run of failures, and it is healthy exactly when that count is 0.
   */
  lemma {:induction false} PeerIsItsHistory(urls: seq<string>, os: seq<Observation>, i: nat)
    requires i < |urls| && AllFit(|urls|, os)
    ensures var p := AfterAll(Fresh(urls), os)[i];
            p.url == urls[i] && p.failCount == Streak(History(urls, os, i)) && (p.healthy <==> p.failCount == 0)
  {
    assert Urls(Fresh(urls)) == urls;
    assert Urls(AfterAll(Fresh(urls), os))[i] == urls[i];
    if os != [] {
      var n := |os| - 1;
      PeerIsItsHistory(urls, os[..n], i);
      var h := History(urls, os[..n], i);
      var prev := AfterAll(Fresh(urls), os[..n]);
      assert Urls(prev) == urls;
      match os[n]
      case Sweep(oks) =>
        StreakExtends(h, oks[i]);
      case One(url, ok) =>
        StreakExtends(h, ok);
        assert h + [] == h;
    }
  }

  lemma StreakExtends(h: seq<bool>, ok: bool)
    ensures Streak(h + [ok]) == if ok then 0 else Streak(h) + 1
  {
    assert (h + [ok])[..|h|] == h;
  }

  /** Strictly increasing positions in the table. */
  predicate Ascending(ix: seq<nat>, n: nat) {
    && (forall a :: 0 <= a < |ix| ==> ix[a] < n)
    && (forall a, b :: 0 <= a < b < |ix| ==> ix[a] < ix[b])
  }

  /** `ix` are the positions of the healthy entries, in table order. */
  predicate HealthyAt(ix: seq<nat>, peers: Table) {
    && Ascending(ix, |peers|)
    && forall i :: 0 <= i < |peers| ==> (peers[i].healthy <==> i in ix)
  }

  lemma HealthyAtExtends(ix: seq<nat>, peers: Table, last: PeerStatus)
    requires HealthyAt(ix, peers)
    ensures HealthyAt(if last.healthy then ix + [|peers|] else ix, peers + [last])
  {
    var n := |peers|;
    var more := if last.healthy then ix + [n] else ix;
    assert n !in ix;
    forall i | 0 <= i < n + 1
      ensures (peers + [last])[i].healthy <==> i in more
    {
      if i < n {
        assert (peers + [last])[i] == peers[i];
        assert i in more <==> i in ix;
      }
    }
  }

  predicate UrlsAt(urls: seq<string>, ix: seq<nat>, peers: Table) {
    |urls| == |ix| && forall a :: 0 <= a < |ix| ==> ix[a] < |peers| && urls[a] == peers[ix[a]].url
  }

  lemma UrlsAtExtends(urls: seq<string>, ix: seq<nat>, peers: Table, last: PeerStatus)
    requires UrlsAt(urls, ix, peers)
    ensures UrlsAt(urls, ix, peers + [last])
    ensures UrlsAt(urls + [last.url], ix + [|peers|], peers + [last])
  {
    assert forall a :: 0 <= a < |ix| ==> (peers + [last])[ix[a]] == peers[ix[a]];
  }

  /** `HealthyPeers` lists the URLs of exactly the healthy entries, in table order. */
  lemma {:induction false} HealthyIsFilter(peers: Table) returns (ix: seq<nat>)
    ensures HealthyAt(ix, peers) && UrlsAt(Healthy(peers), ix, peers)
  {
    ix := [];
    if peers != [] {
      var n := |peers| - 1;
      var init, last := peers[..n], peers[n];
      ix := HealthyIsFilter(init);
      assert peers == init + [last];
      HealthyAtExtends(ix, init, last);
      UrlsAtExtends(Healthy(init), ix, init, last);
      if last.healthy {
        ix := ix + [n];
      } else {
        assert Healthy(peers) == Healthy(init);
      }
    }
  }
}
