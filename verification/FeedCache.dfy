/**
 Feed caching: sorted sets in Redis, filled on a miss, pushed to when a post is created, and
 invalidated for the global feed. Scores are inputs; the ranking formula is not modelled.
 */
module FeedCache {
  import opened Decimal
  import opened Wrappers

  datatype FeedType = Following | GlobalFeed | Trending

  datatype FeedKey = FeedKey(user: int64, feed: FeedType)

  /** A Redis sorted set: members with scores. */
  type ZSet = map<int64, real>

  /** An absent key and an empty sorted set are the same thing in Redis. */
  type Feeds = map<FeedKey, ZSet>

  datatype Item = Item(post: int64, score: real)

  function At(feeds: Feeds, key: FeedKey): ZSet {
    if key in feeds then feeds[key] else map[]
  }

  // ---- Reading a sorted set ----

  predicate DistinctPosts(items: seq<Item>) {
    forall i, j :: 0 <= i < j < |items| ==> items[i].post != items[j].post
  }

  predicate Descending(items: seq<Item>) {
    forall i, j :: 0 <= i < j < |items| ==> items[i].score >= items[j].score
  }

  predicate Holds(z: ZSet, it: Item) {
    it.post in z && z[it.post] == it.score
  }

  predicate Mentions(items: seq<Item>, post: int64) {
    exists i :: 0 <= i < |items| && items[i].post == post
  }

  /** A possible reply to ZREVRANGE 0 k-1 WITHSCORES: the order among equal scores is left open. */
  predicate Best(z: ZSet, k: nat, r: seq<Item>) {
    && |r| == (if k < |z| then k else |z|)
    && DistinctPosts(r) && Descending(r)
    && (forall i :: 0 <= i < |r| ==> Holds(z, r[i]))
    && (forall m, i :: m in z && !Mentions(r, m) && 0 <= i < |r| ==> z[m] <= r[i].score)
  }

  lemma {:induction false} MaxExists(z: ZSet, s: set<int64>)
    requires s != {} && s <= z.Keys
    ensures exists m :: m in s && forall x :: x in s ==> z[x] <= z[m]
  {
    var y :| y in s;
    if s == {y} {
      assert y in s && forall x :: x in s ==> z[x] <= z[y];
    } else {
      MaxExists(z, s - {y});
      var m :| m in s - {y} && forall x :: x in s - {y} ==> z[x] <= z[m];
      var top := if z[y] <= z[m] then m else y;
      assert top in s && forall x :: x in s ==> z[x] <= z[top];
    }
  }

  method ZRevRange(z: ZSet, k: nat) returns (r: seq<Item>)
    ensures Best(z, k, r)
  {
    r := [];
    var rest := z.Keys;
    while |r| < k && rest != {}
      invariant rest <= z.Keys && |r| + |rest| == |z| && |r| <= k
      invariant DistinctPosts(r) && Descending(r)
      invariant forall i :: 0 <= i < |r| ==> Holds(z, r[i]) && r[i].post !in rest
      invariant forall m :: m in z ==> m in rest || Mentions(r, m)
      invariant forall m, i :: m in rest && 0 <= i < |r| ==> z[m] <= r[i].score
      decreases rest
    {
      MaxExists(z, rest);
      var m :| m in rest && forall x :: x in rest ==> z[x] <= z[m];
      ghost var before := r;
      r := r + [Item(m, z[m])];
      rest := rest - {m};
      assert r[|before|].post == m;
      forall x | x in z
        ensures x in rest || Mentions(r, x)
      {
        if Mentions(before, x) {
          var i :| 0 <= i < |before| && before[i].post == x;
          assert r[i].post == x;
        }
      }
    }
  }

  // ---- Filling a sorted set ----

  /** ZADD of a list: a later pair overwrites an earlier one for the same post. */
  function Added(z: ZSet, items: seq<Item>): ZSet {
    if items == [] then z
    else Added(z, items[..|items| - 1])[items[|items| - 1].post := items[|items| - 1].score]
  }

  lemma {:induction false} AddedKeys(items: seq<Item>, m: int64)
    ensures m in Added(map[], items) <==> Mentions(items, m)
  {
    if items != [] {
      var n := |items| - 1;
      AddedKeys(items[..n], m);
      assert Mentions(items, m) <==> Mentions(items[..n], m) || items[n].post == m by {
        if Mentions(items[..n], m) {
          var i :| 0 <= i < n && items[..n][i].post == m;
          assert items[i].post == m;
        }
      }
    }
  }

  lemma {:induction false} AddedDistinct(items: seq<Item>)
    requires DistinctPosts(items)
    ensures forall i :: 0 <= i < |items| ==> Holds(Added(map[], items), items[i])
    ensures |Added(map[], items)| == |items|
  {
    if items != [] {
      var n := |items| - 1;
      var prev, last := items[..n], items[n];
      AddedDistinct(prev);
      AddedKeys(prev, last.post);
      var z := Added(map[], prev);
      assert z[last.post := last.score].Keys == z.Keys + {last.post};
      forall i | 0 <= i < |items|
        ensures Holds(Added(map[], items), items[i])
      {
        if i < n {
          assert Holds(z, prev[i]);
        }
      }
    }
  }

  /** After ZADD a post has the score of its last pair in the list, and keeps its own if the list does not name it. */
  lemma {:induction false} AddedAt(z: ZSet, items: seq<Item>, m: int64)
    ensures m in Added(z, items) <==> m in z || Mentions(items, m)
    ensures !Mentions(items, m) && m in z ==> Added(z, items)[m] == z[m]
    ensures forall i :: 0 <= i < |items| && items[i].post == m && (forall j :: i < j < |items| ==> items[j].post != m) ==>
                          Added(z, items)[m] == items[i].score
  {
    if items != [] {
      var n := |items| - 1;
      AddedAt(z, items[..n], m);
      assert Mentions(items, m) <==> Mentions(items[..n], m) || items[n].post == m by {
        if Mentions(items[..n], m) {
          var i :| 0 <= i < n && items[..n][i].post == m;
          assert items[i].post == m;
        }
      }
      forall i | 0 <= i < |items| && items[i].post == m && forall j :: i < j < |items| ==> items[j].post != m
        ensures Added(z, items)[m] == items[i].score
      {
        if i < n {
          assert items[n].post != m;
          assert items[..n][i] == items[i] && forall j :: i < j < n ==> items[..n][j] == items[j];
        }
      }
    }
  }

  /** DEL then ZADD, each of which Redis may refuse; ZADD of nothing leaves no key. */
  function Filled(z: ZSet, items: seq<Item>, delOk: bool, addOk: bool): ZSet {
    var cleared := if delOk then map[] else z;
    if addOk then Added(cleared, items) else cleared
  }

  /** How the Regional DB and the index answer a cache miss. */
  datatype Source =
    | SourceFailed
    | FollowsNobody
    | Posts(items: seq<Item>)

  /** What Redis grants during one read of a feed. */
  datatype ReadEnv = ReadEnv(readOk: bool, source: Source, delOk: bool, addOk: bool)

  predicate Hit(feeds: Feeds, key: FeedKey, limit: nat, env: ReadEnv) {
    env.readOk && |At(feeds, key)| >= limit
  }

  // ---- A new post ----

  /** One SCAN round: an error, or some matching keys and whether their DEL was accepted. */
  datatype ScanRound = ScanFailed | Keys(keys: set<FeedKey>, delOk: bool)

  datatype Push = Push(follower: int64, ok: bool)

  datatype Followers = FollowersFailed | FollowerList(pushes: seq<Push>)

  /** `followerCount` is None when the query fails; an unknown author counts 0 followers. */
  datatype NewPostEnv = NewPostEnv(
    scan: seq<ScanRound>,
    followerCount: Option<int>,
    threshold: int,
    followers: Followers,
    score: real
  )

  function Invalidated(feeds: Feeds, scan: seq<ScanRound>): Feeds {
    if scan == [] || scan[0].ScanFailed? then feeds
    else Invalidated(if scan[0].delOk then feeds - scan[0].keys else feeds, scan[1..])
  }

  /** SCAN came up with the key before it failed, and the DEL of that round was accepted. */
  predicate DroppedBy(scan: seq<ScanRound>, key: FeedKey) {
    exists i :: 0 <= i < |scan| && DroppedAt(scan, key, i)
  }

  predicate DroppedAt(scan: seq<ScanRound>, key: FeedKey, i: nat)
    requires i < |scan|
  {
    scan[i].Keys? && scan[i].delOk && key in scan[i].keys && forall j :: 0 <= j < i ==> scan[j].Keys?
  }

  lemma {:induction false} DroppedLater(scan: seq<ScanRound>, key: FeedKey)
    requires scan != []
    ensures DroppedBy(scan, key) <==> scan[0].Keys? && ((scan[0].delOk && key in scan[0].keys) || DroppedBy(scan[1..], key))
  {
    if DroppedBy(scan, key) {
      var i :| 0 <= i < |scan| && DroppedAt(scan, key, i);
      if i > 0 {
        assert forall j :: 0 <= j < i ==> scan[1..][j] == scan[j + 1];
        assert scan[0].Keys? && DroppedAt(scan[1..], key, i - 1);
      }
    }
    if scan[0].Keys? && scan[0].delOk && key in scan[0].keys {
      assert DroppedAt(scan, key, 0);
    }
    if scan[0].Keys? && DroppedBy(scan[1..], key) {
      var i :| 0 <= i < |scan[1..]| && DroppedAt(scan[1..], key, i);
      assert forall j :: 0 < j <= i ==> scan[j] == scan[1..][j - 1];
      assert DroppedAt(scan, key, i + 1);
    }
  }

  lemma {:induction false} InvalidatedExactly(feeds: Feeds, scan: seq<ScanRound>)
    ensures forall key :: key in Invalidated(feeds, scan) <==> key in feeds && !DroppedBy(scan, key)
    ensures forall key :: key in Invalidated(feeds, scan) ==> Invalidated(feeds, scan)[key] == feeds[key]
  {
    if scan != [] {
      forall key
        ensures DroppedBy(scan, key) <==> scan[0].Keys? && ((scan[0].delOk && key in scan[0].keys) || DroppedBy(scan[1..], key))
      {
        DroppedLater(scan, key);
      }
      if scan[0].Keys? {
        InvalidatedExactly(if scan[0].delOk then feeds - scan[0].keys else feeds, scan[1..]);
      }
    }
  }

  function Pushed(feeds: Feeds, post: int64, score: real, pushes: seq<Push>): Feeds
    decreases |pushes|
  {
    if pushes == [] then feeds
    else
      var key := FeedKey(pushes[0].follower, Following);
      Pushed(if pushes[0].ok then feeds[key := At(feeds, key)[post := score]] else feeds, post, score, pushes[1..])
  }

  /** The pushes that a new post sets off: none for an author with many followers. */
  function PushesOf(env: NewPostEnv): seq<Push> {
    if env.followerCount.Some? && env.followerCount.value < env.threshold && env.followers.FollowerList?
    then env.followers.pushes else []
  }

  function AfterNewPost(feeds: Feeds, post: int64, env: NewPostEnv): Feeds {
    Pushed(Invalidated(feeds, env.scan), post, env.score, PushesOf(env))
  }

  class FeedGenerator {
    var feeds: Feeds

    constructor ()
      ensures feeds == map[]
    {
      feeds := map[];
    }

    method InvalidateGlobalFeedCache(scan: seq<ScanRound>)
      modifies this
      ensures feeds == Invalidated(old(feeds), scan)
      ensures forall key :: key in feeds <==> key in old(feeds) && !DroppedBy(scan, key)
      ensures forall key :: key in feeds ==> feeds[key] == old(feeds)[key]
    {
      InvalidatedExactly(feeds, scan);
      var i := 0;
      while i < |scan|
        invariant 0 <= i <= |scan|
        invariant Invalidated(feeds, scan[i..]) == Invalidated(old(feeds), scan)
      {
        assert scan[i..][1..] == scan[i + 1..];
        if scan[i].ScanFailed? {
          return;
        }
        if scan[i].keys != {} && scan[i].delOk {
          feeds := feeds - scan[i].keys;
        } else {
          assert scan[i].delOk ==> feeds - scan[i].keys == feeds;
        }
        i := i + 1;
      }
    }

    method PushMode(post: int64, score: real, followers: Followers) returns (success: bool)
      modifies this
      ensures success == followers.FollowerList?
      ensures feeds == if success then Pushed(old(feeds), post, score, followers.pushes) else old(feeds)
    {
      if followers.FollowersFailed? {
        return false;
      }
      var pushes := followers.pushes;
      for i := 0 to |pushes|
        invariant Pushed(feeds, post, score, pushes[i..]) == Pushed(old(feeds), post, score, pushes)
      {
        assert pushes[i..][1..] == pushes[i + 1..];
        if pushes[i].ok {
          var key := FeedKey(pushes[i].follower, Following);
          feeds := feeds[key := At(feeds, key)[post := score]];
        }
      }
      return true;
    }

    method HandleNewPost(post: int64, env: NewPostEnv) returns (success: bool)
      modifies this
      ensures feeds == AfterNewPost(old(feeds), post, env)
      ensures forall key :: GetsPost(Invalidated(old(feeds), env.scan), feeds, post, env, key)
      ensures !success <==> env.followerCount.Some? && env.followerCount.value < env.threshold && env.followers.FollowersFailed?
    {
      forall key {
        PushesReach(Invalidated(feeds, env.scan), post, env, key);
      }
      InvalidateGlobalFeedCache(env.scan);
      if env.followerCount.None? {
        return true;
      }
      if env.followerCount.value < env.threshold {
        success := PushMode(post, env.score, env.followers);
        return success;
      }
      return true;
    }

    /**
     A read is answered from Redis exactly when the cached set holds at least `limit` posts;
     otherwise the source is asked and the set replaced.
     */
    method GetFeed(key: FeedKey, limit: nat, env: ReadEnv) returns (r: Result<seq<Item>, ()>)
      requires limit >= 1
      modifies this
      ensures Hit(old(feeds), key, limit, env) <==> env.readOk && |At(old(feeds), key)| >= limit
      ensures Hit(old(feeds), key, limit, env) ==>
                feeds == old(feeds) && r.Ok? && |r.value| == limit && Best(At(old(feeds), key), limit, r.value)
      ensures !Hit(old(feeds), key, limit, env) ==>
                match env.source
                case SourceFailed => r.Err? && feeds == old(feeds)
                case FollowsNobody => r == Ok([]) && feeds == old(feeds)
                case Posts(items) =>
                  && r == Ok(items) && feeds - {key} == old(feeds) - {key}
                  && (env.addOk ==> At(feeds, key) == Added(if env.delOk then map[] else At(old(feeds), key), items))
                  && (!env.addOk ==> At(feeds, key) == if env.delOk then map[] else At(old(feeds), key))
                  && feeds == old(feeds)[key := Filled(At(old(feeds), key), items, env.delOk, env.addOk)]
    {
      if env.readOk {
        var items := ZRevRange(At(feeds, key), limit);
        if |items| >= limit {
          return Ok(items);
        }
      }
      match env.source
      case SourceFailed =>
        return Err(());
      case FollowsNobody =>
        return Ok([]);
      case Posts(items) =>
        var cleared := if env.delOk then map[] else At(feeds, key);
        var z := if env.addOk then Added(cleared, items) else cleared;
        feeds := feeds[key := z];
        return Ok(items);
    }
  }

  // ---- A filled page is what the next reads return ----

  /** `r` holds the k best (post, score) pairs of the page. */
  predicate BestOfPage(page: seq<Item>, k: nat, r: seq<Item>) {
    && |r| == k && Descending(r) && DistinctPosts(r)
    && (forall i :: 0 <= i < |r| ==> r[i] in page)
    && (forall it, i :: it in page && it !in r && 0 <= i < |r| ==> it.score <= r[i].score)
  }

  /**
   After a page of distinct posts has been cached, a read of at most that many posts is a hit and
   returns the best of the page; a read of more is a miss.
   */
  lemma PageIsServed(feeds: Feeds, key: FeedKey, page: seq<Item>, limit: nat, env: ReadEnv)
    requires DistinctPosts(page) && env.readOk
    ensures var after := feeds[key := Filled(At(feeds, key), page, true, true)];
            && (Hit(after, key, limit, env) <==> limit <= |page|)
            && (limit <= |page| ==> forall r: seq<Item> :: Best(At(after, key), limit, r) ==> BestOfPage(page, limit, r))
  {
    var after := feeds[key := Filled(At(feeds, key), page, true, true)];
    var z := Added(map[], page);
    AddedDistinct(page);
    assert At(after, key) == z;
    if limit <= |page| {
      forall r: seq<Item> | Best(z, limit, r)
        ensures BestOfPage(page, limit, r)
      {
        forall i | 0 <= i < |r|
          ensures r[i] in page
        {
          assert Holds(z, r[i]);
          AddedKeys(page, r[i].post);
          var j :| 0 <= j < |page| && page[j].post == r[i].post;
          assert Holds(z, page[j]) && r[i] == page[j];
        }
        forall it, i | it in page && it !in r && 0 <= i < |r|
          ensures it.score <= r[i].score
        {
          var j :| 0 <= j < |page| && page[j] == it;
          assert Holds(z, it);
          assert forall k :: 0 <= k < |r| && r[k].post == it.post ==> Holds(z, r[k]) && r[k] == it;
        }
      }
    }
  }

  // ---- What a new post changes ----

  predicate PushedTo(pushes: seq<Push>, user: int64) {
    exists i :: 0 <= i < |pushes| && pushes[i].follower == user && pushes[i].ok
  }

  lemma {:induction false} PushedEffect(feeds: Feeds, post: int64, score: real, pushes: seq<Push>, key: FeedKey)
    ensures At(Pushed(feeds, post, score, pushes), key) ==
            if key.feed.Following? && PushedTo(pushes, key.user) then At(feeds, key)[post := score] else At(feeds, key)
    ensures key in Pushed(feeds, post, score, pushes) <==>
            key in feeds || (key.feed.Following? && PushedTo(pushes, key.user))
    decreases |pushes|
  {
    if pushes != [] {
      var head := FeedKey(pushes[0].follower, Following);
      var next := if pushes[0].ok then feeds[head := At(feeds, head)[post := score]] else feeds;
      PushedEffect(next, post, score, pushes[1..], key);
      assert pushes == [pushes[0]] + pushes[1..];
      assert PushedTo(pushes, key.user) <==> (pushes[0].follower == key.user && pushes[0].ok) || PushedTo(pushes[1..], key.user) by {
        if PushedTo(pushes[1..], key.user) {
          var i :| 0 <= i < |pushes[1..]| && pushes[1..][i].follower == key.user && pushes[1..][i].ok;
          assert pushes[i + 1].follower == key.user && pushes[i + 1].ok;
        }
      }
      assert At(feeds, key)[post := score][post := score] == At(feeds, key)[post := score];
    }
  }

  /** The feed gets the post exactly if it is the following feed of a follower, few enough follow, and the write succeeds. */
  predicate GetsPost(before: Feeds, after: Feeds, post: int64, env: NewPostEnv, key: FeedKey) {
    var pushing := env.followerCount.Some? && env.followerCount.value < env.threshold && env.followers.FollowerList?;
    if pushing && key.feed.Following? && PushedTo(env.followers.pushes, key.user)
    then key in after && At(after, key) == At(before, key)[post := env.score]
    else At(after, key) == At(before, key) && (key in after <==> key in before)
  }

  lemma PushesReach(feeds: Feeds, post: int64, env: NewPostEnv, key: FeedKey)
    ensures GetsPost(feeds, Pushed(feeds, post, env.score, PushesOf(env)), post, env, key)
  {
    PushedEffect(feeds, post, env.score, PushesOf(env), key);
  }

  /** SCAN finished without an error, every DEL was accepted, and only global feed keys matched. */
  predicate CleanScan(feeds: Feeds, scan: seq<ScanRound>) {
    && (forall i :: 0 <= i < |scan| ==> scan[i].Keys? && scan[i].delOk)
    && (forall i, k :: 0 <= i < |scan| && scan[i].Keys? && k in scan[i].keys ==> k.feed.GlobalFeed?)
    && (forall k :: k in feeds && k.feed.GlobalFeed? ==> exists i :: 0 <= i < |scan| && scan[i].Keys? && k in scan[i].keys)
  }

  lemma {:induction false} InvalidatedEffect(feeds: Feeds, scan: seq<ScanRound>)
    requires CleanScan(feeds, scan)
    ensures forall k :: k in Invalidated(feeds, scan) <==> k in feeds && !k.feed.GlobalFeed?
    ensures forall k :: k in Invalidated(feeds, scan) ==> Invalidated(feeds, scan)[k] == feeds[k]
  {
    if scan == [] {
    } else {
      var next := feeds - scan[0].keys;
      forall k | k in next && k.feed.GlobalFeed?
        ensures exists i :: 0 <= i < |scan[1..]| && scan[1..][i].Keys? && k in scan[1..][i].keys
      {
        var i :| 0 <= i < |scan| && scan[i].Keys? && k in scan[i].keys;
        assert scan[1..][i - 1] == scan[i];
      }
      assert forall i :: 0 <= i < |scan[1..]| ==> scan[1..][i] == scan[i + 1];
      InvalidatedEffect(next, scan[1..]);
    }
  }

  /**
   After an error-free invalidation no global feed is cached, and every other feed is untouched
   except that the author's followers, when the author is below the threshold, get the post.
   */
  lemma NewPostEffect(feeds: Feeds, post: int64, env: NewPostEnv)
    requires CleanScan(feeds, env.scan)
    ensures var after := AfterNewPost(feeds, post, env);
            var pushing := env.followerCount.Some? && env.followerCount.value < env.threshold && env.followers.FollowerList?;
            forall key: FeedKey ::
              && (key.feed.GlobalFeed? ==> key !in after)
              && (key.feed.Trending? ==> (key in after <==> key in feeds) && At(after, key) == At(feeds, key))
              && (key.feed.Following? ==>
                    At(after, key) == if pushing && PushedTo(env.followers.pushes, key.user)
                                      then At(feeds, key)[post := env.score] else At(feeds, key))
  {
    InvalidatedEffect(feeds, env.scan);
    var mid := Invalidated(feeds, env.scan);
    var after := AfterNewPost(feeds, post, env);
    var pushing := env.followerCount.Some? && env.followerCount.value < env.threshold && env.followers.FollowerList?;
    forall key: FeedKey
      ensures && (key.feed.GlobalFeed? ==> key !in after)
              && (key.feed.Trending? ==> (key in after <==> key in feeds) && At(after, key) == At(feeds, key))
              && (key.feed.Following? ==>
                    At(after, key) == if pushing && PushedTo(env.followers.pushes, key.user)
                                      then At(feeds, key)[post := env.score] else At(feeds, key))
    {
      PushesReach(mid, post, env, key);
      assert !key.feed.GlobalFeed? ==> At(mid, key) == At(feeds, key);
    }
  }
}
