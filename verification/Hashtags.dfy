/** Hashtag extraction: a two-index scan, proved against a description of which tags a text holds. */
module Hashtags {
  import opened Utf8

  const HASH: byte := '#' as int

  predicate IsTagChar(b: byte) {
    || 'a' as int <= b <= 'z' as int || 'A' as int <= b <= 'Z' as int
    || '0' as int <= b <= '9' as int || b == '_' as int
  }

  /** The ends of the three ranges and the underscore are tag characters; what lies next to them is not. */
  lemma TagCharBounds()
    ensures IsTagChar('a' as int) && IsTagChar('z' as int) && IsTagChar('A' as int) && IsTagChar('Z' as int) && IsTagChar('0' as int) && IsTagChar('9' as int) && IsTagChar('_' as int)
    ensures !IsTagChar('`' as int) && !IsTagChar('{' as int) && !IsTagChar('@' as int) && !IsTagChar('[' as int) && !IsTagChar('/' as int) && !IsTagChar(':' as int) && !IsTagChar('^' as int) && !IsTagChar('-' as int)
  {
  }

  // ---- What a hashtag is ----

  /** `t` is the maximal nonempty run of tag characters right after the '#' at index `i`. */
  predicate TagAt(s: Bytes, i: int, t: Bytes) {
    && 0 <= i < |s| && s[i] == HASH
    && t != [] && i + 1 + |t| <= |s| && s[i + 1..i + 1 + |t|] == t
    && (forall k :: 0 <= k < |t| ==> IsTagChar(t[k]))
    && (i + 1 + |t| < |s| ==> !IsTagChar(s[i + 1 + |t|]))
  }

  predicate FirstAt(s: Bytes, i: int, t: Bytes) {
    TagAt(s, i, t) && forall j :: 0 <= j < i ==> !TagAt(s, j, t)
  }

  ghost predicate Tagged(s: Bytes, end: int, t: Bytes) {
    exists i :: i < end && TagAt(s, i, t)
  }

  /** `r` lists the hashtags of `s` that start before `end`, once each, by first occurrence. */
  ghost predicate ListsTags(s: Bytes, end: int, r: seq<Bytes>) {
    && (forall t :: t in r <==> Tagged(s, end, t))
    && (forall a, b :: 0 <= a < b < |r| ==> r[a] != r[b])
    && (forall a, b, i, j :: 0 <= a < b < |r| && FirstAt(s, i, r[a]) && FirstAt(s, j, r[b]) ==> i < j)
  }

  // ---- The scan ----

  function RunEnd(s: Bytes, i: nat): (j: nat)
    requires i <= |s|
    ensures i <= j <= |s|
    ensures forall k :: i <= k < j ==> IsTagChar(s[k])
    ensures j < |s| ==> !IsTagChar(s[j])
    decreases |s| - i
  {
    if i < |s| && IsTagChar(s[i]) then RunEnd(s, i + 1) else i
  }

  function Extract(s: Bytes, i: nat, tags: seq<Bytes>): seq<Bytes>
    requires i <= |s|
    decreases |s| - i
  {
    if i == |s| then tags
    else if s[i] == HASH then
      var tag := s[i + 1..RunEnd(s, i + 1)];
      Extract(s, i + 1, if tag != [] && tag !in tags then tags + [tag] else tags)
    else Extract(s, i + 1, tags)
  }

  function Hashtags(s: Bytes): seq<Bytes> {
    Extract(s, 0, [])
  }

  /** A stretch without '#' adds nothing. */
  lemma {:induction false} ExtractSkips(s: Bytes, i: nat, j: nat, tags: seq<Bytes>)
    requires i <= j <= |s|
    requires forall k :: i <= k < j ==> s[k] != HASH
    ensures Extract(s, i, tags) == Extract(s, j, tags)
    decreases j - i
  {
    if i < j {
      ExtractSkips(s, i + 1, j, tags);
    }
  }

  method ExtractHashtags(content: Bytes) returns (tags: seq<Bytes>)
    ensures tags == Hashtags(content)
    ensures ListsTags(content, |content|, tags)
  {
    var seen: set<Bytes> := {};
    tags := [];
    var i := 0;
    while i < |content|
      invariant 0 <= i <= |content|
      invariant forall t :: t in seen <==> t in tags
      invariant Extract(content, i, tags) == Hashtags(content)
    {
      if content[i] == HASH && i + 1 < |content| {
        var j := i + 1;
        while j < |content| && IsTagChar(content[j])
          invariant i + 1 <= j <= |content|
          invariant RunEnd(content, j) == RunEnd(content, i + 1)
          invariant forall k :: i + 1 <= k < j ==> IsTagChar(content[k])
        {
          j := j + 1;
        }
        ghost var before := tags;
        if j > i + 1 {
          var tag := content[i + 1..j];
          if tag !in seen {
            seen := seen + {tag};
            tags := tags + [tag];
          }
        }
        assert Extract(content, i, before) == Extract(content, i + 1, tags);
        ExtractSkips(content, i + 1, j, tags);
        i := j;
      } else {
        i := i + 1;
      }
    }
    ExtractLists(content, 0, []);
  }

  // ---- The scan finds exactly the hashtags ----

  /** At most one tag starts at an index, and it is the run the scan measures. */
  lemma TagAtIsRun(s: Bytes, i: nat, t: Bytes)
    requires i < |s| && s[i] == HASH
    ensures TagAt(s, i, t) <==> t != [] && t == s[i + 1..RunEnd(s, i + 1)]
  {
    var j := RunEnd(s, i + 1);
    var run := s[i + 1..j];
    if TagAt(s, i, t) {
      var e := i + 1 + |t|;
      assert forall k :: i + 1 <= k < e ==> s[k] == t[k - i - 1];
      assert forall k :: i + 1 <= k < e ==> IsTagChar(s[k]);
    }
  }

  lemma {:induction false} ExtractLists(s: Bytes, i: nat, tags: seq<Bytes>)
    requires i <= |s| && ListsTags(s, i, tags)
    ensures ListsTags(s, |s|, Extract(s, i, tags))
    decreases |s| - i
  {
    if i < |s| {
      if s[i] == HASH {
        var tag := s[i + 1..RunEnd(s, i + 1)];
        TagStep(s, i, tags, tag);
        ExtractLists(s, i + 1, if tag != [] && tag !in tags then tags + [tag] else tags);
      } else {
        assert forall t :: Tagged(s, i + 1, t) <==> Tagged(s, i, t);
        ExtractLists(s, i + 1, tags);
      }
    }
  }

  lemma TagStep(s: Bytes, i: nat, tags: seq<Bytes>, tag: Bytes)
    requires i < |s| && s[i] == HASH && ListsTags(s, i, tags) && tag == s[i + 1..RunEnd(s, i + 1)]
    ensures ListsTags(s, i + 1, if tag != [] && tag !in tags then tags + [tag] else tags)
  {
    var r := if tag != [] && tag !in tags then tags + [tag] else tags;
    forall t
      ensures t in r <==> Tagged(s, i + 1, t)
    {
      TagAtIsRun(s, i, t);
      assert Tagged(s, i + 1, t) <==> Tagged(s, i, t) || TagAt(s, i, t);
    }
    forall a, b, x, y | 0 <= a < b < |r| && FirstAt(s, x, r[a]) && FirstAt(s, y, r[b])
      ensures x < y
    {
      if b == |tags| {
        assert r[a] in tags && Tagged(s, i, r[a]) && !Tagged(s, i, r[b]);
      }
    }
  }

  /** A text has one hashtag list: the description leaves no choice. */
  lemma ListsTagsUnique(s: Bytes, end: int, r1: seq<Bytes>, r2: seq<Bytes>)
    requires end <= |s| && ListsTags(s, end, r1) && ListsTags(s, end, r2)
    ensures r1 == r2
  {
    SamePrefix(s, end, r1, r2, |r1|);
    SamePrefix(s, end, r2, r1, |r2|);
  }

  lemma FirstExists(s: Bytes, i: nat, t: Bytes) returns (f: nat)
    requires TagAt(s, i, t)
    ensures f <= i && FirstAt(s, f, t)
  {
    f := 0;
    while !TagAt(s, f, t)
      invariant f <= i && forall j :: 0 <= j < f ==> !TagAt(s, j, t)
      decreases i - f
    {
      f := f + 1;
    }
  }

  /** Two lists that agree on their first k tags agree on the next one. */
  lemma SameNext(s: Bytes, end: int, r1: seq<Bytes>, r2: seq<Bytes>, k: nat, m: nat, l: nat)
    requires ListsTags(s, end, r1) && ListsTags(s, end, r2)
    requires k <= m < |r2| && k <= l < |r1| && r2[m] == r1[k] && r1[l] == r2[k]
    ensures m == k
  {
    assert r1[k] in r1 && r2[k] in r2;
    var i :| i < end && TagAt(s, i, r1[k]);
    var j :| j < end && TagAt(s, j, r2[k]);
    var first1 := FirstExists(s, i, r1[k]);
    var first2 := FirstExists(s, j, r2[k]);
    assert k < m ==> first2 < first1;
    assert k < l ==> first1 < first2;
  }

  lemma IndexBeyond(r1: seq<Bytes>, r2: seq<Bytes>, k: nat) returns (m: nat)
    requires k < |r1| && k <= |r2| && r1[..k] == r2[..k] && r1[k] in r2
    requires forall a, b :: 0 <= a < b < |r1| ==> r1[a] != r1[b]
    ensures k <= m < |r2| && r2[m] == r1[k]
  {
    forall x | 0 <= x < k
      ensures r2[x] != r1[k]
    {
      assert r2[x] == r2[..k][x] == r1[..k][x] == r1[x];
    }
    m :| 0 <= m < |r2| && r2[m] == r1[k];
  }

  lemma {:induction false} SamePrefix(s: Bytes, end: int, r1: seq<Bytes>, r2: seq<Bytes>, n: nat)
    requires ListsTags(s, end, r1) && ListsTags(s, end, r2) && n <= |r1|
    ensures n <= |r2| && r1[..n] == r2[..n]
  {
    if n > 0 {
      var k := n - 1;
      SamePrefix(s, end, r1, r2, k);
      assert r1[k] in r1;
      var m := IndexBeyond(r1, r2, k);
      assert r2[k] in r2;
      var l := IndexBeyond(r2, r1, k);
      SameNext(s, end, r1, r2, k, m, l);
      assert r1[..n] == r1[..k] + [r1[k]] && r2[..n] == r2[..k] + [r2[k]];
    }
  }
}
