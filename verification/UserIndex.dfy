/**
 Pull anti-entropy on the user index. Each cluster copies from its first peer the users it does
 not have. After k rounds a cluster knows the users of everyone it reaches in k hops, and all
 clusters agree after n - 1 rounds, whatever they start from, exactly when the first-peer map is
 one cycle through all n clusters.
 */
module UserIndex {
  import opened Decimal
  import opened Wrappers

  datatype UserRow = UserRow(region: string, emailHash: Option<string>)

  type Users = map<int64, UserRow>

  datatype Entry = Entry(uid: int64, row: UserRow)

  // ---- One reconciliation ----

  /** The upserts of one pass: `known` is the set built before the loop, `oks[i]` whether upsert i succeeds. */
  function Pulled(users: Users, known: set<int64>, entries: seq<Entry>, oks: seq<bool>): Users
    requires |oks| == |entries|
  {
    if entries == [] then users
    else
      var n := |entries| - 1;
      var before := Pulled(users, known, entries[..n], oks[..n]);
      if entries[n].uid !in known && oks[n] then before[entries[n].uid := entries[n].row] else before
  }

  /** How many upserts of the pass succeed. */
  function Synced(known: set<int64>, entries: seq<Entry>, oks: seq<bool>): nat
    requires |oks| == |entries|
  {
    if entries == [] then 0
    else
      var n := |entries| - 1;
      Synced(known, entries[..n], oks[..n]) + if entries[n].uid !in known && oks[n] then 1 else 0
  }

  /** The entries that are missing and whose upsert succeeds. */
  function Missing(known: set<int64>, entries: seq<Entry>, oks: seq<bool>): set<nat>
    requires |oks| == |entries|
  {
    set k: nat | k < |entries| && entries[k].uid !in known && oks[k]
  }

  lemma {:induction false} SyncedAreMissing(known: set<int64>, entries: seq<Entry>, oks: seq<bool>)
    requires |oks| == |entries|
    ensures Synced(known, entries, oks) == |Missing(known, entries, oks)|
  {
    if entries != [] {
      var n := |entries| - 1;
      SyncedAreMissing(known, entries[..n], oks[..n]);
      if entries[n].uid !in known && oks[n] {
        assert Missing(known, entries, oks) == Missing(known, entries[..n], oks[..n]) + {n};
      } else {
        assert Missing(known, entries, oks) == Missing(known, entries[..n], oks[..n]);
      }
    }
  }

  class UserIndexReconciler {
    var users: Users

    constructor (users: Users)
      ensures this.users == users
    {
      this.users := users;
    }

    method UpsertUserIndex(uid: int64, row: UserRow, ok: bool) returns (success: bool)
      modifies this
      ensures success == ok
      ensures users == if ok then old(users)[uid := row] else old(users)
    {
      if ok {
        users := users[uid := row];
      }
      return ok;
    }

    /** `fetched` is None when the peer does not answer; `local` is the listing of the own table, if it can be read. */
    method Reconcile(fetched: Option<seq<Entry>>, local: Option<seq<Entry>>, oks: seq<bool>) returns (synced: nat)
      requires fetched.Some? ==> |oks| == |fetched.value|
      requires local.Some? ==> Lists(local.value, users)
      modifies this
      ensures fetched.None? || local.None? ==> users == old(users) && synced == 0
      ensures fetched.Some? && local.Some? ==>
                && users == Pulled(old(users), old(users).Keys, fetched.value, oks)
                && synced == |Missing(old(users).Keys, fetched.value, oks)|
    {
      synced := 0;
      if fetched.None? || local.None? {
        return;
      }
      var localSet: set<int64> := {};
      for i := 0 to |local.value|
        invariant forall u :: u in localSet <==> exists k :: 0 <= k < i && local.value[k].uid == u
      {
        localSet := localSet + {local.value[i].uid};
      }
      ListedKeys(local.value, users);
      assert localSet == users.Keys;
      var entries := fetched.value;
      for i := 0 to |entries|
        invariant users == Pulled(old(users), localSet, entries[..i], oks[..i])
        invariant synced == Synced(localSet, entries[..i], oks[..i])
      {
        assert entries[..i + 1][..i] == entries[..i] && oks[..i + 1][..i] == oks[..i];
        if entries[i].uid !in localSet {
          var ok := UpsertUserIndex(entries[i].uid, entries[i].row, oks[i]);
          if ok {
            synced := synced + 1;
          }
        }
      }
      assert entries[..|entries|] == entries && oks[..|entries|] == oks;
      SyncedAreMissing(localSet, entries, oks);
    }
  }

  /** The listing of a table: every row once. */
  ghost predicate Lists(entries: seq<Entry>, users: Users) {
    && (forall k :: 0 <= k < |entries| ==> entries[k].uid in users && users[entries[k].uid] == entries[k].row)
    && (forall u :: u in users ==> exists k :: 0 <= k < |entries| && entries[k].uid == u)
  }

  lemma ListedKeys(entries: seq<Entry>, users: Users)
    requires Lists(entries, users)
    ensures forall u :: u in users <==> exists k :: 0 <= k < |entries| && entries[k].uid == u
  {
  }

  /** Own rows stay, whatever arrives. */
  function Merge(local: Users, peer: Users): Users {
    peer + local
  }

  predicate Succeeded(entries: seq<Entry>, oks: seq<bool>, u: int64)
    requires |oks| == |entries|
  {
    exists k :: 0 <= k < |entries| && entries[k].uid == u && oks[k]
  }

  /** A pass keeps every local row and adds the peer's rows whose upsert succeeded, and no others. */
  lemma {:induction false} PulledRow(local: Users, peer: Users, entries: seq<Entry>, oks: seq<bool>, u: int64)
    requires |oks| == |entries|
    requires forall k :: 0 <= k < |entries| ==> entries[k].uid in peer && peer[entries[k].uid] == entries[k].row
    ensures var after := Pulled(local, local.Keys, entries, oks);
            && (u in after <==> u in local || Succeeded(entries, oks, u))
            && (u in local ==> after[u] == local[u])
            && (u in after && u !in local ==> u in peer && after[u] == peer[u])
  {
    if entries != [] {
      var n := |entries| - 1;
      PulledRow(local, peer, entries[..n], oks[..n], u);
      assert Succeeded(entries, oks, u) <==> Succeeded(entries[..n], oks[..n], u) || (entries[n].uid == u && oks[n]) by {
        if Succeeded(entries[..n], oks[..n], u) {
          var k :| 0 <= k < n && entries[..n][k].uid == u && oks[..n][k];
          assert entries[k].uid == u && oks[k];
        }
      }
    }
  }

  /** A pass in which nothing fails merges the two tables. */
  lemma FullPullMerges(local: Users, peer: Users, entries: seq<Entry>, oks: seq<bool>)
    requires |oks| == |entries| && Lists(entries, peer) && forall k :: 0 <= k < |oks| ==> oks[k]
    ensures Pulled(local, local.Keys, entries, oks) == Merge(local, peer)
  {
    var after := Pulled(local, local.Keys, entries, oks);
    forall u: int64
      ensures u in after <==> u in Merge(local, peer)
      ensures u in after ==> after[u] == Merge(local, peer)[u]
    {
      PulledRow(local, peer, entries, oks, u);
      if u in peer {
        var k :| 0 <= k < |entries| && entries[k].uid == u;
        assert Succeeded(entries, oks, u);
      }
    }
  }

  // ---- Rounds ----

  /** First-peer map of n clusters. */
  predicate PeerMap(p: seq<nat>) {
    forall i :: 0 <= i < |p| ==> p[i] < |p|
  }

  function Iter(p: seq<nat>, i: nat, k: nat): (j: nat)
    requires PeerMap(p) && i < |p|
    ensures j < |p|
  {
    if k == 0 then i else p[Iter(p, i, k - 1)]
  }

  lemma {:induction false} IterAdd(p: seq<nat>, i: nat, a: nat, b: nat)
    requires PeerMap(p) && i < |p|
    ensures Iter(p, Iter(p, i, a), b) == Iter(p, i, a + b)
  {
    if b > 0 {
      IterAdd(p, i, a, b - 1);
    }
  }

  /** Cluster i after k rounds in which every cluster reads its peer's table of the round before, and nothing fails. */
  function TableAfter(p: seq<nat>, tables: seq<Users>, k: nat, i: nat): Users
    requires PeerMap(p) && |tables| == |p| && i < |p|
  {
    if k == 0 then tables[i]
    else Merge(TableAfter(p, tables, k - 1, i), TableAfter(p, tables, k - 1, p[i]))
  }

  /** The users that the clusters i, p(i), ..., p^k(i) start with. */
  function HopUsers(p: seq<nat>, tables: seq<Users>, k: nat, i: nat): set<int64>
    requires PeerMap(p) && |tables| == |p| && i < |p|
  {
    if k == 0 then tables[i].Keys else HopUsers(p, tables, k - 1, i) + tables[Iter(p, i, k)].Keys
  }

  lemma OneHop(p: seq<nat>, i: nat)
    requires PeerMap(p) && i < |p|
    ensures Iter(p, i, 0) == i && Iter(p, i, 1) == p[i]
  {
    assert Iter(p, i, 0) == i;
  }

  /** k hops from i: i itself, then k - 1 hops from its peer. */
  lemma {:induction false} HopShift(p: seq<nat>, tables: seq<Users>, k: nat, i: nat)
    requires PeerMap(p) && |tables| == |p| && i < |p| && k > 0
    ensures HopUsers(p, tables, k, i) == tables[i].Keys + HopUsers(p, tables, k - 1, p[i])
  {
    OneHop(p, i);
    if k > 1 {
      HopShift(p, tables, k - 1, i);
      IterAdd(p, i, 1, k - 1);
    }
  }

  lemma {:induction false} HopsKeepOwn(p: seq<nat>, tables: seq<Users>, k: nat, i: nat)
    requires PeerMap(p) && |tables| == |p| && i < |p|
    ensures tables[i].Keys <= HopUsers(p, tables, k, i)
  {
    if k > 0 {
      HopsKeepOwn(p, tables, k - 1, i);
    }
  }

  /** k hops from i: k - 1 hops from it, or from its peer. */
  lemma HopSplit(p: seq<nat>, tables: seq<Users>, k: nat, i: nat)
    requires PeerMap(p) && |tables| == |p| && i < |p| && k > 0
    ensures HopUsers(p, tables, k, i) == HopUsers(p, tables, k - 1, i) + HopUsers(p, tables, k - 1, p[i])
  {
    HopShift(p, tables, k, i);
    HopsKeepOwn(p, tables, k - 1, i);
  }

  lemma MergedKeys(local: Users, peer: Users)
    ensures Merge(local, peer).Keys == local.Keys + peer.Keys
  {
  }

  /** After k rounds cluster i knows exactly the users of the clusters within k hops of it. */
  lemma {:induction false} RoundsClosedForm(p: seq<nat>, tables: seq<Users>, k: nat, i: nat)
    requires PeerMap(p) && |tables| == |p| && i < |p|
    ensures TableAfter(p, tables, k, i).Keys == HopUsers(p, tables, k, i)
  {
    if k > 0 {
      RoundsClosedForm(p, tables, k - 1, i);
      RoundsClosedForm(p, tables, k - 1, p[i]);
      MergedKeys(TableAfter(p, tables, k - 1, i), TableAfter(p, tables, k - 1, p[i]));
      HopSplit(p, tables, k, i);
    }
  }

  lemma {:induction false} HopWitness(p: seq<nat>, tables: seq<Users>, k: nat, i: nat, u: int64) returns (j: nat)
    requires PeerMap(p) && |tables| == |p| && i < |p| && u in HopUsers(p, tables, k, i)
    ensures j <= k && u in tables[Iter(p, i, j)]
  {
    if k == 0 {
      OneHop(p, i);
      j := 0;
    } else if u in tables[Iter(p, i, k)] {
      j := k;
    } else {
      j := HopWitness(p, tables, k - 1, i, u);
    }
  }

  lemma {:induction false} HopHolds(p: seq<nat>, tables: seq<Users>, k: nat, i: nat, j: nat)
    requires PeerMap(p) && |tables| == |p| && i < |p| && j <= k
    ensures tables[Iter(p, i, j)].Keys <= HopUsers(p, tables, k, i)
  {
    if j == 0 {
      OneHop(p, i);
      HopsKeepOwn(p, tables, k, i);
    } else if j < k {
      HopHolds(p, tables, k - 1, i, j);
    }
  }

  // ---- Convergence ----

  /** Following first peers from any cluster comes back to it after n hops and not before. */
  ghost predicate OneCycle(p: seq<nat>)
    requires PeerMap(p)
  {
    forall i :: 0 <= i < |p| ==>
      Iter(p, i, |p|) == i && forall k :: 0 < k < |p| ==> Iter(p, i, k) != i
  }

  ghost predicate Covering(p: seq<nat>)
    requires PeerMap(p)
  {
    forall i, j :: 0 <= i < |p| && 0 <= j < |p| ==> Within(p, i, |p|, j)
  }

  /** Cluster j is less than m hops away from i. */
  ghost predicate Within(p: seq<nat>, i: nat, m: nat, j: nat)
    requires PeerMap(p) && i < |p|
  {
    exists k :: 0 <= k < m && Iter(p, i, k) == j
  }

  /** Whatever users the clusters start with, after n - 1 rounds they all know the same ones. */
  ghost predicate Converges(p: seq<nat>)
    requires PeerMap(p) && p != []
  {
    forall tables: seq<Users>, i, j :: |tables| == |p| && 0 <= i < |p| && 0 <= j < |p| ==>
      EndAlike(p, tables, i, j)
  }

  predicate EndAlike(p: seq<nat>, tables: seq<Users>, i: nat, j: nat)
    requires PeerMap(p) && p != [] && |tables| == |p| && i < |p| && j < |p|
  {
    TableAfter(p, tables, |p| - 1, i).Keys == TableAfter(p, tables, |p| - 1, j).Keys
  }

  function Visited(p: seq<nat>, i: nat, m: nat): (s: set<nat>)
    requires PeerMap(p) && i < |p|
  {
    if m == 0 then {} else Visited(p, i, m - 1) + {Iter(p, i, m - 1)}
  }

  lemma WithinOneMore(p: seq<nat>, i: nat, m: nat, j: nat)
    requires PeerMap(p) && i < |p| && m > 0
    ensures Within(p, i, m, j) <==> Within(p, i, m - 1, j) || Iter(p, i, m - 1) == j
  {
  }

  lemma {:induction false} VisitedMembers(p: seq<nat>, i: nat, m: nat)
    requires PeerMap(p) && i < |p|
    ensures forall j: nat :: j in Visited(p, i, m) <==> Within(p, i, m, j)
    ensures |Visited(p, i, m)| <= m
  {
    if m > 0 {
      VisitedMembers(p, i, m - 1);
      forall j: nat
        ensures j in Visited(p, i, m) <==> Within(p, i, m, j)
      {
        WithinOneMore(p, i, m, j);
      }
    }
  }

  function Below(n: nat): (s: set<nat>)
    ensures forall j: nat :: j in s <==> j < n
    ensures |s| == n
  {
    if n == 0 then {} else Below(n - 1) + {n - 1}
  }

  lemma SubsetCardinality(a: set<nat>, b: set<nat>)
    requires a <= b
    ensures |a| <= |b|
    ensures |a| == |b| ==> a == b
  {
    var rest := b - a;
    assert b == a + rest;
    assert |b| == |a| + |rest|;
  }

  /** On a cycle, two walks of fewer than n hops from the same cluster end in different places. */
  lemma CycleHopsDiffer(p: seq<nat>, i: nat, a: nat, b: nat)
    requires PeerMap(p) && i < |p| && OneCycle(p) && a < b < |p|
    ensures Iter(p, i, a) != Iter(p, i, b)
  {
    var rest := |p| - b;
    IterAdd(p, i, a, rest);
    IterAdd(p, i, b, rest);
    assert Iter(p, i, a + rest) != i;
  }

  lemma CycleHopIsNew(p: seq<nat>, i: nat, m: nat)
    requires PeerMap(p) && i < |p| && OneCycle(p) && m < |p|
    ensures Iter(p, i, m) !in Visited(p, i, m)
  {
    VisitedMembers(p, i, m);
    if Within(p, i, m, Iter(p, i, m)) {
      var k :| 0 <= k < m && Iter(p, i, k) == Iter(p, i, m);
      CycleHopsDiffer(p, i, k, m);
    }
  }

  /** The first n hops of a cycle are all different. */
  lemma {:induction false} CycleVisits(p: seq<nat>, i: nat, m: nat)
    requires PeerMap(p) && i < |p| && OneCycle(p) && m <= |p|
    ensures |Visited(p, i, m)| == m
  {
    if m > 0 {
      CycleVisits(p, i, m - 1);
      CycleHopIsNew(p, i, m - 1);
    }
  }

  lemma CycleCovers(p: seq<nat>)
    requires PeerMap(p) && OneCycle(p)
    ensures Covering(p)
  {
    forall i, j | 0 <= i < |p| && 0 <= j < |p|
      ensures Within(p, i, |p|, j)
    {
      CycleVisits(p, i, |p|);
      VisitedMembers(p, i, |p|);
      assert Visited(p, i, |p|) <= Below(|p|);
      SubsetCardinality(Visited(p, i, |p|), Below(|p|));
      assert j in Visited(p, i, |p|);
    }
  }

  /** If the walk from i returns after k hops, it never leaves its first k stops. */
  lemma {:induction false} ReturnRepeats(p: seq<nat>, i: nat, k: nat, m: nat)
    requires PeerMap(p) && i < |p| && k > 0 && Iter(p, i, k) == i
    ensures Iter(p, i, m) in Visited(p, i, k)
    decreases m
  {
    VisitedMembers(p, i, k);
    if m >= k {
      ReturnRepeats(p, i, k, m - k);
      IterAdd(p, i, k, m - k);
    }
  }

  lemma CoveringIsCycle(p: seq<nat>)
    requires PeerMap(p) && Covering(p)
    ensures OneCycle(p)
  {
    forall i | 0 <= i < |p|
      ensures Iter(p, i, |p|) == i && forall k :: 0 < k < |p| ==> Iter(p, i, k) != i
    {
      forall k | 0 < k < |p|
        ensures Iter(p, i, k) != i
      {
        if Iter(p, i, k) == i {
          forall j | j in Below(|p|)
            ensures j in Visited(p, i, k)
          {
            assert Within(p, i, |p|, j);
            var m :| 0 <= m < |p| && Iter(p, i, m) == j;
            ReturnRepeats(p, i, k, m);
          }
          VisitedMembers(p, i, k);
          SubsetCardinality(Below(|p|), Visited(p, i, k));
          assert false;
        }
      }
      assert Within(p, p[i], |p|, i);
      var m :| 0 <= m < |p| && Iter(p, p[i], m) == i;
      OneHop(p, i);
      IterAdd(p, i, 1, m);
      assert Iter(p, i, m + 1) == i;
      assert m + 1 == |p|;
    }
  }

  lemma HopShared(p: seq<nat>, tables: seq<Users>, n: nat, i: nat, j: nat, u: int64)
    requires PeerMap(p) && |tables| == |p| == n && i < n && j < n && Covering(p)
    requires u in HopUsers(p, tables, n - 1, i)
    ensures u in HopUsers(p, tables, n - 1, j)
  {
    var a := HopWitness(p, tables, n - 1, i, u);
    var b := HopsBetween(p, j, Iter(p, i, a));
    HopHolds(p, tables, n - 1, j, b);
  }

  lemma HopsBetween(p: seq<nat>, i: nat, j: nat) returns (k: nat)
    requires PeerMap(p) && Covering(p) && i < |p| && j < |p|
    ensures k < |p| && Iter(p, i, k) == j
  {
    assert Within(p, i, |p|, j);
    k :| 0 <= k < |p| && Iter(p, i, k) == j;
  }

  lemma EndsAlike(p: seq<nat>, tables: seq<Users>, n: nat, i: nat, j: nat)
    requires PeerMap(p) && |tables| == |p| == n && i < n && j < n
    ensures EndAlike(p, tables, i, j) <==> HopUsers(p, tables, n - 1, i) == HopUsers(p, tables, n - 1, j)
  {
    RoundsClosedForm(p, tables, n - 1, i);
    RoundsClosedForm(p, tables, n - 1, j);
  }

  lemma CoveringEndsAlike(p: seq<nat>, tables: seq<Users>, n: nat, i: nat, j: nat)
    requires PeerMap(p) && |tables| == |p| == n && i < n && j < n && Covering(p)
    ensures EndAlike(p, tables, i, j)
  {
    var a, b := HopUsers(p, tables, n - 1, i), HopUsers(p, tables, n - 1, j);
    forall u: int64
      ensures u in a <==> u in b
    {
      if u in a { HopShared(p, tables, n, i, j, u); }
      if u in b { HopShared(p, tables, n, j, i, u); }
    }
    assert a == b;
    EndsAlike(p, tables, n, i, j);
  }

  lemma CoveringConverges(p: seq<nat>)
    requires PeerMap(p) && p != [] && Covering(p)
    ensures Converges(p)
  {
    forall tables: seq<Users>, i, j | |tables| == |p| && 0 <= i < |p| && 0 <= j < |p|
      ensures EndAlike(p, tables, i, j)
    {
      CoveringEndsAlike(p, tables, |p|, i, j);
    }
  }

  /** One user, known to cluster j only. */
  function Lonely(n: nat, j: nat): (tables: seq<Users>)
    ensures |tables| == n
  {
    seq(n, m requires 0 <= m < n => if m == j then map[1 := UserRow("", None)] else map[])
  }

  lemma LonelyTravels(p: seq<nat>, n: nat, i: nat, j: nat)
    requires PeerMap(p) && |p| == n && i < n && j < n
    requires EndAlike(p, Lonely(n, j), i, j)
    ensures Within(p, i, n, j)
  {
    var tables := Lonely(n, j);
    HopsKeepOwn(p, tables, n - 1, j);
    assert 1 in tables[j].Keys;
    EndsAlike(p, tables, n, i, j);
    var k := HopWitness(p, tables, n - 1, i, 1);
    assert Iter(p, i, k) == j;
  }

  lemma ConvergingCovers(p: seq<nat>)
    requires PeerMap(p) && p != [] && Converges(p)
    ensures Covering(p)
  {
    forall i, j | 0 <= i < |p| && 0 <= j < |p|
      ensures Within(p, i, |p|, j)
    {
      assert EndAlike(p, Lonely(|p|, j), i, j);
      LonelyTravels(p, |p|, i, j);
    }
  }

  lemma ConvergesIffOneCycle(p: seq<nat>)
    requires PeerMap(p) && p != []
    ensures Converges(p) <==> OneCycle(p)
  {
    if OneCycle(p) {
      CycleCovers(p);
      CoveringConverges(p);
    }
    if Converges(p) {
      ConvergingCovers(p);
      CoveringIsCycle(p);
    }
  }

  // ---- Any order of rounds, any failures ----

  /** Clusters and the listings they have fetched but not yet used. */
  datatype Mesh = Mesh(tables: seq<Users>, fetched: seq<Users>)

  datatype Step =
    | Fetch(i: nat)
    | Pull(i: nat, entries: seq<Entry>, oks: seq<bool>)

  predicate WellFormed(p: seq<nat>, m: Mesh) {
    PeerMap(p) && |m.tables| == |m.fetched| == |p|
  }

  /** A pull uses what was fetched, however old it is, in any order and with any upserts failing. */
  ghost predicate Enabled(p: seq<nat>, m: Mesh, s: Step)
    requires WellFormed(p, m)
  {
    && s.i < |p|
    && (s.Pull? ==> |s.oks| == |s.entries| && Lists(s.entries, m.fetched[s.i]))
  }

  ghost function Next(p: seq<nat>, m: Mesh, s: Step): (m': Mesh)
    requires WellFormed(p, m) && Enabled(p, m, s)
    ensures WellFormed(p, m')
  {
    match s
    case Fetch(i) => m.(fetched := m.fetched[i := m.tables[p[i]]])
    case Pull(i, entries, oks) =>
      m.(tables := m.tables[i := Pulled(m.tables[i], m.tables[i].Keys, entries, oks)])
  }

  ghost predicate IsRun(p: seq<nat>, ms: seq<Mesh>, steps: seq<Step>) {
    && |ms| == |steps| + 1
    && (forall k :: 0 <= k < |ms| ==> WellFormed(p, ms[k]))
    && (forall k :: 0 <= k < |steps| ==> Enabled(p, ms[k], steps[k]) && ms[k + 1] == Next(p, ms[k], steps[k]))
  }

  /** The fetches of the clusters before k. */
  ghost function FetchAll(p: seq<nat>, m: Mesh, k: nat): (m': Mesh)
    requires WellFormed(p, m) && k <= |p|
    ensures WellFormed(p, m') && m'.tables == m.tables
    ensures forall i :: 0 <= i < |p| ==> m'.fetched[i] == if i < k then m.tables[p[i]] else m.fetched[i]
  {
    if k == 0 then m else Next(p, FetchAll(p, m, k - 1), Fetch(k - 1))
  }

  function AllOk(entries: seq<Entry>): (oks: seq<bool>)
    ensures |oks| == |entries| && forall k :: 0 <= k < |oks| ==> oks[k]
  {
    seq(|entries|, _ => true)
  }

  ghost predicate Listings(p: seq<nat>, m: Mesh, lists: seq<seq<Entry>>)
    requires WellFormed(p, m)
  {
    |lists| == |p| && forall i :: 0 <= i < |p| ==> Lists(lists[i], m.fetched[i])
  }

  /** The pulls of the clusters before k, none of which fails. */
  ghost function PullAll(p: seq<nat>, m: Mesh, lists: seq<seq<Entry>>, k: nat): (m': Mesh)
    requires WellFormed(p, m) && k <= |p| && Listings(p, m, lists)
    ensures WellFormed(p, m') && m'.fetched == m.fetched
  {
    if k == 0 then m
    else Next(p, PullAll(p, m, lists, k - 1), Pull(k - 1, lists[k - 1], AllOk(lists[k - 1])))
  }

  lemma NextPull(p: seq<nat>, m: Mesh, lists: seq<seq<Entry>>, k: nat)
    requires WellFormed(p, m) && 0 < k <= |p| && Listings(p, m, lists)
    ensures var tables := PullAll(p, m, lists, k - 1).tables;
            var t := tables[k - 1];
            PullAll(p, m, lists, k).tables == tables[k - 1 := Pulled(t, t.Keys, lists[k - 1], AllOk(lists[k - 1]))]
  {
  }

  lemma NextPullMerges(p: seq<nat>, m: Mesh, lists: seq<seq<Entry>>, k: nat)
    requires WellFormed(p, m) && 0 < k <= |p| && Listings(p, m, lists)
    requires PullAll(p, m, lists, k - 1).tables[k - 1] == m.tables[k - 1]
    ensures PullAll(p, m, lists, k).tables ==
            PullAll(p, m, lists, k - 1).tables[k - 1 := Merge(m.tables[k - 1], m.fetched[k - 1])]
  {
    NextPull(p, m, lists, k);
    FullPullMerges(m.tables[k - 1], m.fetched[k - 1], lists[k - 1], AllOk(lists[k - 1]));
  }

  /** The first k clusters have merged what they fetched, the others have not changed. */
  predicate MergedBefore(m: Mesh, tables: seq<Users>, k: nat) {
    && |tables| == |m.tables| == |m.fetched|
    && forall i :: 0 <= i < |tables| ==> tables[i] == if i < k then Merge(m.tables[i], m.fetched[i]) else m.tables[i]
  }

  lemma MergedOneMore(m: Mesh, tables: seq<Users>, k: nat)
    requires 0 < k <= |tables| && MergedBefore(m, tables, k - 1)
    ensures MergedBefore(m, tables[k - 1 := Merge(m.tables[k - 1], m.fetched[k - 1])], k)
  {
  }

  lemma PullStep(p: seq<nat>, m: Mesh, lists: seq<seq<Entry>>, k: nat)
    requires WellFormed(p, m) && 0 < k <= |p| && Listings(p, m, lists)
    requires MergedBefore(m, PullAll(p, m, lists, k - 1).tables, k - 1)
    ensures MergedBefore(m, PullAll(p, m, lists, k).tables, k)
  {
    NextPullMerges(p, m, lists, k);
    MergedOneMore(m, PullAll(p, m, lists, k - 1).tables, k);
  }

  lemma {:induction false} PullAllMerges(p: seq<nat>, m: Mesh, lists: seq<seq<Entry>>, k: nat)
    requires WellFormed(p, m) && k <= |p| && Listings(p, m, lists)
    ensures MergedBefore(m, PullAll(p, m, lists, k).tables, k)
  {
    if k > 0 {
      PullAllMerges(p, m, lists, k - 1);
      PullStep(p, m, lists, k);
    }
  }

  /** Everybody fetches, then everybody pulls, and nothing fails. */
  ghost predicate IsRound(p: seq<nat>, m: Mesh, lists: seq<seq<Entry>>, m': Mesh)
    requires WellFormed(p, m)
  {
    var fetched := FetchAll(p, m, |p|);
    Listings(p, fetched, lists) && m' == PullAll(p, fetched, lists, |p|)
  }

  lemma RoundMerges(p: seq<nat>, m: Mesh, lists: seq<seq<Entry>>, m': Mesh, i: nat)
    requires WellFormed(p, m) && IsRound(p, m, lists, m') && i < |p|
    ensures WellFormed(p, m') && m'.tables[i] == Merge(m.tables[i], m.tables[p[i]])
  {
    PullAllMerges(p, FetchAll(p, m, |p|), lists, |p|);
  }

  ghost predicate RoundAt(p: seq<nat>, ms: seq<Mesh>, lists: seq<seq<seq<Entry>>>, j: nat)
    requires j < |lists| < |ms|
  {
    WellFormed(p, ms[j]) && IsRound(p, ms[j], lists[j], ms[j + 1])
  }

  /** `TableAfter` is what k rounds of fetches and pulls leave, in whatever order the rows are listed. */
  lemma {:induction false} RoundsAreSteps(p: seq<nat>, ms: seq<Mesh>, lists: seq<seq<seq<Entry>>>, k: nat, i: nat)
    requires |ms| == |lists| + 1 && k <= |lists| && PeerMap(p) && i < |p|
    requires WellFormed(p, ms[0])
    requires forall j :: 0 <= j < |lists| ==> RoundAt(p, ms, lists, j)
    ensures WellFormed(p, ms[k])
    ensures ms[k].tables[i] == TableAfter(p, ms[0].tables, k, i)
  {
    if k > 0 {
      RoundsAreSteps(p, ms, lists, k - 1, i);
      RoundsAreSteps(p, ms, lists, k - 1, p[i]);
      assert RoundAt(p, ms, lists, k - 1);
      RoundMerges(p, ms[k - 1], lists[k - 1], ms[k], i);
    }
  }

  /** Two tables never show different rows for one user. */
  predicate AgreeOn(a: Users, b: Users, u: int64) {
    u in a && u in b ==> a[u] == b[u]
  }

  ghost predicate Agreeing(m: Mesh) {
    forall a, b, u :: a in m.tables + m.fetched && b in m.tables + m.fetched ==> AgreeOn(a, b, u)
  }

  lemma AgreeingStep(p: seq<nat>, m: Mesh, s: Step)
    requires WellFormed(p, m) && Enabled(p, m, s) && Agreeing(m)
    ensures Agreeing(Next(p, m, s))
    ensures forall i, u :: 0 <= i < |p| && u in m.tables[i] ==>
              u in Next(p, m, s).tables[i] && Next(p, m, s).tables[i][u] == m.tables[i][u]
  {
    var next := Next(p, m, s);
    var earlier := m.tables + m.fetched;
    assert forall k :: 0 <= k < |p| ==> m.tables[k] in earlier && m.fetched[k] in earlier;
    if s.Fetch? {
      forall t | t in next.tables + next.fetched
        ensures t in earlier
      {
      }
    } else {
      var merged := next.tables[s.i];
      forall u: int64
        ensures u in m.tables[s.i] ==> u in merged && merged[u] == m.tables[s.i][u]
        ensures u in merged ==> exists t :: t in earlier && u in t && t[u] == merged[u]
      {
        PulledRow(m.tables[s.i], m.fetched[s.i], s.entries, s.oks, u);
        if u in merged {
          var from := if u in m.tables[s.i] then m.tables[s.i] else m.fetched[s.i];
          assert from in earlier && u in from && from[u] == merged[u];
        }
      }
      forall a, b, u | a in next.tables + next.fetched && b in next.tables + next.fetched
        ensures AgreeOn(a, b, u)
      {
        assert a == merged || a in earlier;
        assert b == merged || b in earlier;
        if u in a && u in b {
          var s: Users :| s in earlier && u in s && s[u] == a[u];
          var t: Users :| t in earlier && u in t && t[u] == b[u];
          assert AgreeOn(s, t, u);
        }
      }
    }
  }

  /** Tables that agree at the start agree for ever, and no cluster loses or changes a row it has. */
  lemma {:induction false} AgreementIsKept(p: seq<nat>, ms: seq<Mesh>, steps: seq<Step>, n: nat)
    requires IsRun(p, ms, steps) && Agreeing(ms[0]) && n <= |steps|
    ensures Agreeing(ms[n])
    ensures forall i, u :: 0 <= i < |p| && u in ms[0].tables[i] ==>
              u in ms[n].tables[i] && ms[n].tables[i][u] == ms[0].tables[i][u]
  {
    if n > 0 {
      AgreementIsKept(p, ms, steps, n - 1);
      assert Enabled(p, ms[n - 1], steps[n - 1]) && ms[n] == Next(p, ms[n - 1], steps[n - 1]);
      AgreeingStep(p, ms[n - 1], steps[n - 1]);
    }
  }
}
