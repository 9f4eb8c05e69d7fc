/**
 The global post index: upserts that keep some columns and overwrite others.
 The index after any sequence of writes is given in closed form, row by row and column by column.
 */
module PostIndex {
  import opened Decimal
  import opened Hashtags
  import opened Model
  import opened Utf8
  import opened Wrappers

  const PREVIEW_LIMIT := 500
  const ELLIPSIS: Bytes := [46, 46, 46]

  function TruncatePreview(content: Bytes, maxLen: nat): Bytes {
    if |content| <= maxLen then content else content[..maxLen] + ELLIPSIS
  }

  /** For a valid text the preview is valid exactly when the cut at byte `maxLen` falls between two runes. */
  lemma PreviewValidIff(content: Bytes, maxLen: nat)
    requires Valid(content)
    ensures Valid(TruncatePreview(content, maxLen)) <==>
            |content| <= maxLen || !Continuation(content[maxLen], 0x80, 0xBF)
  {
    if |content| > maxLen {
      var cut := content[..maxLen];
      var preview := cut + ELLIPSIS;
      assert preview[..maxLen] == cut && preview[maxLen] == ELLIPSIS[0];
      ValidCut(content, maxLen);
      EllipsisIsValid();
      if Valid(cut) {
        ValidAppend(cut, ELLIPSIS);
      }
      if Valid(preview) {
        ValidCut(preview, maxLen);
      }
    }
  }

  lemma EllipsisIsValid()
    ensures Valid(ELLIPSIS)
  {
    assert ELLIPSIS[1..] == [46, 46] && [46, 46][1..] == [46] && [46][1..] == [];
  }

  /** The columns both create and update overwrite. */
  datatype Content = Content(
    preview: Bytes,
    visibility: Visibility,
    hashtags: seq<Bytes>,
    mediaUrls: seq<Bytes>,
    nickname: Bytes,
    avatarUrl: Bytes,
    postType: int,
    videoUrl: Bytes,
    videoCoverUrl: Bytes
  )

  datatype Author = Author(uid: int64, region: Region)

  datatype Compliance = Compliance(gdprCompliant: bool, userConsent: bool, category: DataCategory)

  datatype Row = Row(
    author: Author,
    content: Content,
    stats: Stats,
    compliance: Compliance,
    mentions: seq<int64>,
    createdAt: Time,
    syncedAt: Time,
    updatedAt: Time
  )

  type Index = map<int64, Row>

  const NO_STATS := Stats(0, 0, 0, 0)

  function ContentOf(e: Event): Content {
    var p := e.payload;
    Content(
      TruncatePreview(p.content, PREVIEW_LIMIT), p.visibility, Hashtags.Hashtags(p.content), p.mediaUrls,
      if p.authorProfile.Some? then p.authorProfile.value.nickname else [],
      if p.authorProfile.Some? then p.authorProfile.value.avatarUrl else [],
      p.postType, p.videoUrl, p.videoCoverUrl)
  }

  // ---- What the database takes ----

  /** n times a character of three bytes. */
  function Ideographs(n: nat): (s: Bytes)
    ensures |s| == 3 * n
  {
    if n == 0 then [] else [0xE4, 0xB8, 0xAD] + Ideographs(n - 1)
  }

  lemma {:induction false} IdeographAt(n: nat, k: nat)
    requires k < 3 * n
    ensures Ideographs(n)[k] == [0xE4, 0xB8, 0xAD][k % 3]
  {
    if k >= 3 {
      IdeographAt(n - 1, k - 3);
    }
  }

  lemma {:induction false} IdeographsAreValid(n: nat)
    ensures Valid(Ideographs(n))
  {
    if n > 0 {
      IdeographsAreValid(n - 1);
      assert Ideographs(n)[3..] == Ideographs(n - 1);
    }
  }

  /** The preview of any longer text of three-byte characters is cut inside one. */
  lemma IdeographsAreCut(n: nat)
    requires 3 * n > PREVIEW_LIMIT
    ensures Valid(Ideographs(n)) && !Valid(TruncatePreview(Ideographs(n), PREVIEW_LIMIT))
  {
    IdeographsAreValid(n);
    IdeographAt(n, PREVIEW_LIMIT);
    PreviewValidIff(Ideographs(n), PREVIEW_LIMIT);
  }

  /** A value of a TEXT column: UTF-8 without NUL. */
  predicate Text(s: Bytes) {
    Valid(s) && 0 !in s
  }

  /** A value of a VARCHAR(n) column. */
  predicate Fits(s: Bytes, n: nat) {
    Text(s) && Runes(s) <= n
  }

  /** The types of the columns that create and update write; hashtags are always `Text`. */
  predicate ContentFits(c: Content) {
    && Text(c.preview)
    && (c.visibility.OtherVisibility? ==> NameFits(c.visibility.name, 20))
    && (forall u :: u in c.mediaUrls ==> Text(u))
    && Fits(c.nickname, 100) && Fits(c.avatarUrl, 255)
    && -0x8000_0000 <= c.postType < 0x8000_0000
    && Text(c.videoUrl) && Text(c.videoCoverUrl)
  }

  /** A create or an update of this event is not refused for its values. */
  predicate Storable(e: Event) {
    ContentFits(ContentOf(e))
  }

  /** What the preview keeps of the content: all of it, or its first 500 bytes. */
  function Head(content: Bytes): Bytes {
    if |content| <= 500 then content else content[..500]
  }

  lemma PreviewIsText(content: Bytes)
    ensures Text(TruncatePreview(content, PREVIEW_LIMIT)) <==> Valid(Head(content)) && 0 !in Head(content)
  {
    var head, preview := Head(content), TruncatePreview(content, PREVIEW_LIMIT);
    if |content| > 500 {
      EllipsisIsValid();
      assert preview == head + ELLIPSIS;
      assert preview[..500] == head && preview[500] == ELLIPSIS[0];
      assert forall b :: b in preview <==> b in head || b in ELLIPSIS;
      if Valid(head) {
        ValidAppend(head, ELLIPSIS);
      }
      if Valid(preview) {
        ValidCut(preview, 500);
      }
    }
  }

  /** In terms of the event: everything that makes the database take a create or an update, and nothing else does. */
  lemma StorableIff(e: Event)
    ensures var p := e.payload;
            Storable(e) <==>
              && Valid(Head(p.content)) && 0 !in Head(p.content)
              && (p.visibility.OtherVisibility? ==>
                    |p.visibility.name| <= 20 && forall i :: 0 <= i < |p.visibility.name| ==> p.visibility.name[i] as int != 0)
              && (forall u :: u in p.mediaUrls ==> Valid(u) && 0 !in u)
              && (p.authorProfile.Some? ==>
                    var a := p.authorProfile.value;
                    && Valid(a.nickname) && 0 !in a.nickname && Runes(a.nickname) <= 100
                    && Valid(a.avatarUrl) && 0 !in a.avatarUrl && Runes(a.avatarUrl) <= 255)
              && -2147483648 <= p.postType <= 2147483647
              && Valid(p.videoUrl) && 0 !in p.videoUrl && Valid(p.videoCoverUrl) && 0 !in p.videoCoverUrl
  {
    PreviewIsText(e.payload.content);
  }

  lemma {:induction false} TagCharsAreText(t: Bytes)
    requires forall k :: 0 <= k < |t| ==> IsTagChar(t[k])
    ensures Text(t)
  {
    if t != [] {
      TagCharsAreText(t[1..]);
      assert t == [t[0]] + t[1..];
    }
  }

  lemma HashtagsAreText(e: Event)
    ensures forall t :: t in ContentOf(e).hashtags ==> Text(t)
  {
    var s := e.payload.content;
    ExtractLists(s, 0, []);
    forall t | t in Hashtags.Hashtags(s)
      ensures Text(t)
    {
      assert Tagged(s, |s|, t);
      TagCharsAreText(t);
    }
  }

  function AuthorOf(e: Event): Author {
    Author(e.payload.authorUid, e.payload.authorRegion)
  }

  function ComplianceOf(e: Event): Compliance {
    Compliance(e.metadata.gdprCompliant, e.metadata.userConsent, e.metadata.category)
  }

  function CreatedAtOf(e: Event, now: Time): Time {
    if e.payload.createdAt.Some? then e.payload.createdAt.value else now
  }

  // ---- The effect of each statement on the row of its post ----

  function Inserted(r: Option<Row>, e: Event, now: Time): Row {
    match r
    case None =>
      Row(AuthorOf(e), ContentOf(e), NO_STATS, ComplianceOf(e), [], CreatedAtOf(e, now), now, now)
    case Some(row) =>
      row.(author := AuthorOf(e), content := ContentOf(e), syncedAt := now, updatedAt := now)
  }

  function Updated(row: Row, e: Event, now: Time): Row {
    row.(content := ContentOf(e), syncedAt := now, updatedAt := now)
  }

  function WithStats(row: Row, stats: Stats, now: Time): Row {
    row.(stats := stats, updatedAt := now)
  }

  /** A write that took effect, with the clock it read. */
  datatype Write =
    | Create(event: Event, now: Time)
    | Update(event: Event, now: Time)
    | Delete(uid: int64)
    | SetStats(postUid: int64, stats: Stats, now: Time)
  {
    function Uid(): int64 {
      match this
      case Create(e, _) => e.payload.postUid
      case Update(e, _) => e.payload.postUid
      case Delete(uid) => uid
      case SetStats(uid, _, _) => uid
    }

    predicate Writer() {
      Create? || Update?
    }
  }

  function RowAfter(r: Option<Row>, w: Write): Option<Row> {
    match w
    case Create(e, now) => Some(Inserted(r, e, now))
    case Update(e, now) => Some(if r.Some? then Updated(r.value, e, now) else Inserted(r, e, now))
    case Delete(_) => None
    case SetStats(_, st, now) => if r.Some? then Some(WithStats(r.value, st, now)) else None
  }

  function Lookup(idx: Index, uid: int64): Option<Row> {
    if uid in idx then Some(idx[uid]) else None
  }

  function Store(idx: Index, uid: int64, r: Option<Row>): (idx': Index)
    ensures Lookup(idx', uid) == r
    ensures forall u :: u != uid ==> Lookup(idx', u) == Lookup(idx, u)
  {
    if r.Some? then idx[uid := r.value] else idx - {uid}
  }

  function IndexAfter(idx: Index, w: Write): Index {
    Store(idx, w.Uid(), RowAfter(Lookup(idx, w.Uid()), w))
  }

  function Fold(idx: Index, ws: seq<Write>): Index {
    if ws == [] then idx else IndexAfter(Fold(idx, ws[..|ws| - 1]), ws[|ws| - 1])
  }

  // ---- The columns, one by one ----

  /** The row shows this payload: every column that create and update overwrite. */
  ghost predicate Shows(row: Row, p: Payload) {
    && row.content.preview == (if |p.content| <= 500 then p.content
                               else p.content[..500] + ['.' as int, '.' as int, '.' as int])
    && row.content.visibility == p.visibility
    && ListsTags(p.content, |p.content|, row.content.hashtags)
    && row.content.mediaUrls == p.mediaUrls
    && row.content.nickname == (if p.authorProfile.Some? then p.authorProfile.value.nickname else [])
    && row.content.avatarUrl == (if p.authorProfile.Some? then p.authorProfile.value.avatarUrl else [])
    && row.content.postType == p.postType
    && row.content.videoUrl == p.videoUrl
    && row.content.videoCoverUrl == p.videoCoverUrl
  }

  predicate WrittenBy(row: Row, p: Payload) {
    row.author.uid == p.authorUid && row.author.region == p.authorRegion
  }

  predicate Declares(row: Row, m: Metadata) {
    && row.compliance.gdprCompliant == m.gdprCompliant && row.compliance.userConsent == m.userConsent
    && row.compliance.category == m.category
  }

  predicate CreatedAt(row: Row, p: Payload, now: Time) {
    row.createdAt == (if p.createdAt.Some? then p.createdAt.value else now)
  }

  /** A row as a first insert leaves it. */
  ghost predicate NewRowOf(row: Row, e: Event, now: Time) {
    && Shows(row, e.payload) && WrittenBy(row, e.payload) && Declares(row, e.metadata) && CreatedAt(row, e.payload, now)
    && row.stats == Stats(0, 0, 0, 0) && row.mentions == [] && row.syncedAt == row.updatedAt == now
  }

  /** The columns no conflicting write touches. */
  predicate KeepsOf(row: Row, was: Row) {
    && row.stats == was.stats && row.compliance == was.compliance && row.mentions == was.mentions
    && row.createdAt == was.createdAt
  }

  /** An insert: the row of the post is new, or keeps what a conflict keeps; no other row changes. */
  ghost predicate InsertedInto(before: Index, after: Index, e: Event, now: Time) {
    var uid := e.payload.postUid;
    && uid in after && after - {uid} == before - {uid}
    && if uid !in before then NewRowOf(after[uid], e, now)
       else
         && Shows(after[uid], e.payload) && WrittenBy(after[uid], e.payload)
         && KeepsOf(after[uid], before[uid]) && after[uid].syncedAt == after[uid].updatedAt == now
  }

  /** An update: the author stays, too; a post without a row gets one. */
  ghost predicate UpdatedIn(before: Index, after: Index, e: Event, now: Time) {
    var uid := e.payload.postUid;
    && uid in after && after - {uid} == before - {uid}
    && if uid !in before then NewRowOf(after[uid], e, now)
       else
         && Shows(after[uid], e.payload) && after[uid].author == before[uid].author
         && KeepsOf(after[uid], before[uid]) && after[uid].syncedAt == after[uid].updatedAt == now
  }

  /** New counts: everything else stays, and a post without a row gets none. */
  predicate CountedIn(before: Index, after: Index, uid: int64, stats: Stats, now: Time) {
    && after.Keys == before.Keys && after - {uid} == before - {uid}
    && (uid in before ==>
          && after[uid].stats == stats && after[uid].updatedAt == now && after[uid].syncedAt == before[uid].syncedAt
          && after[uid].content == before[uid].content && after[uid].author == before[uid].author
          && after[uid].compliance == before[uid].compliance && after[uid].createdAt == before[uid].createdAt
          && after[uid].mentions == before[uid].mentions)
  }

  lemma CreateInserts(idx: Index, e: Event, now: Time)
    ensures InsertedInto(idx, IndexAfter(idx, Create(e, now)), e, now)
  {
    var uid, after := e.payload.postUid, IndexAfter(idx, Create(e, now));
    assert Lookup(after, uid) == Some(after[uid]);
    ShowsContentOf(e, after[uid]);
  }

  lemma UpdateUpdates(idx: Index, e: Event, now: Time)
    ensures UpdatedIn(idx, IndexAfter(idx, Update(e, now)), e, now)
  {
    var uid, after := e.payload.postUid, IndexAfter(idx, Update(e, now));
    assert Lookup(after, uid) == Some(after[uid]);
    ShowsContentOf(e, after[uid]);
  }

  lemma DeleteDeletes(idx: Index, uid: int64)
    ensures IndexAfter(idx, Delete(uid)) == idx - {uid}
  {
  }

  lemma SetStatsCounts(idx: Index, uid: int64, stats: Stats, now: Time)
    ensures CountedIn(idx, IndexAfter(idx, SetStats(uid, stats, now)), uid, stats, now)
  {
    var after := IndexAfter(idx, SetStats(uid, stats, now));
    assert uid in idx ==> Lookup(after, uid) == Some(after[uid]);
  }

  lemma ShowsContentOf(e: Event, row: Row)
    requires row.content == ContentOf(e)
    ensures Shows(row, e.payload)
  {
    ExtractLists(e.payload.content, 0, []);
  }

  // ---- The service ----

  class GlobalIndexService {
    var rows: Index

    constructor ()
      ensures rows == map[]
    {
      rows := map[];
    }

    /** The arguments that create and update bind alike. */
    method NewContent(e: Event) returns (content: Content)
      ensures content == ContentOf(e)
    {
      var hashtags := ExtractHashtags(e.payload.content);
      var nickname, avatarUrl: Bytes := [], [];
      if e.payload.authorProfile.Some? {
        nickname := e.payload.authorProfile.value.nickname;
        avatarUrl := e.payload.authorProfile.value.avatarUrl;
      }
      content := Content(
        TruncatePreview(e.payload.content, PREVIEW_LIMIT), e.payload.visibility, hashtags, e.payload.mediaUrls,
        nickname, avatarUrl, e.payload.postType, e.payload.videoUrl, e.payload.videoCoverUrl);
    }

    /** `ok` is whether the database is up to it; a refused statement changes nothing. */
    method InsertPost(e: Event, now: Time, ok: bool) returns (success: bool)
      modifies this
      ensures success == (ok && Storable(e))
      ensures rows == if success then IndexAfter(old(rows), Create(e, now)) else old(rows)
      ensures success ==> InsertedInto(old(rows), rows, e, now)
    {
      var uid := e.payload.postUid;
      var content := NewContent(e);
      if !ok || !ContentFits(content) {
        return false;
      }
      if uid in rows {
        rows := rows[uid := rows[uid].(author := AuthorOf(e), content := content, syncedAt := now, updatedAt := now)];
      } else {
        rows := rows[uid := Row(AuthorOf(e), content, NO_STATS, ComplianceOf(e), [], CreatedAtOf(e, now), now, now)];
      }
      ShowsContentOf(e, rows[uid]);
      return true;
    }

    /** An update that matches no row falls back to an insert, which is a second statement. */
    method UpdatePost(e: Event, now: Time, ok: bool, fallbackOk: bool) returns (success: bool)
      modifies this
      ensures success == (ok && Storable(e) && (e.payload.postUid in old(rows) || fallbackOk))
      ensures rows == if success then IndexAfter(old(rows), Update(e, now)) else old(rows)
      ensures success ==> UpdatedIn(old(rows), rows, e, now)
    {
      if !ok {
        return false;
      }
      var uid := e.payload.postUid;
      if uid !in rows {
        success := InsertPost(e, now, fallbackOk);
        return success;
      }
      var content := NewContent(e);
      if !ContentFits(content) {
        return false;
      }
      rows := rows[uid := rows[uid].(content := content, syncedAt := now, updatedAt := now)];
      ShowsContentOf(e, rows[uid]);
      return true;
    }

    method DeletePost(e: Event, ok: bool) returns (success: bool)
      modifies this
      ensures success == ok
      ensures rows == if ok then IndexAfter(old(rows), Delete(e.payload.postUid)) else old(rows)
      ensures ok ==> rows == old(rows) - {e.payload.postUid}
    {
      if ok {
        rows := rows - {e.payload.postUid};
      }
      return ok;
    }

    method UpdateStats(uid: int64, stats: Stats, now: Time, ok: bool) returns (success: bool)
      modifies this
      ensures success == ok
      ensures rows == if ok then IndexAfter(old(rows), SetStats(uid, stats, now)) else old(rows)
      ensures ok ==> CountedIn(old(rows), rows, uid, stats, now)
    {
      if ok && uid in rows {
        rows := rows[uid := rows[uid].(stats := stats, updatedAt := now)];
      }
      return ok;
    }
  }

  // ---- Writes to different posts do not meet ----

  function ForPost(ws: seq<Write>, uid: int64): seq<Write> {
    if ws == [] then []
    else
      var w := ws[|ws| - 1];
      ForPost(ws[..|ws| - 1], uid) + (if w.Uid() == uid then [w] else [])
  }

  function RowFold(r: Option<Row>, ws: seq<Write>): Option<Row> {
    if ws == [] then r else RowAfter(RowFold(r, ws[..|ws| - 1]), ws[|ws| - 1])
  }

  /** A row depends on the writes to its own post only. */
  lemma {:induction false} FoldPerPost(idx: Index, ws: seq<Write>, uid: int64)
    ensures Lookup(Fold(idx, ws), uid) == RowFold(Lookup(idx, uid), ForPost(ws, uid))
  {
    if ws != [] {
      var prev := ws[..|ws| - 1];
      FoldPerPost(idx, prev, uid);
      var mine := ForPost(prev, uid);
      var all := ForPost(ws, uid);
      if ws[|ws| - 1].Uid() == uid {
        assert all[..|all| - 1] == mine;
      } else {
        assert all == mine;
      }
    }
  }

  /** The same writes per post, in any global order, leave the same index. */
  lemma Convergence(idx: Index, ws1: seq<Write>, ws2: seq<Write>)
    requires forall uid :: ForPost(ws1, uid) == ForPost(ws2, uid)
    ensures Fold(idx, ws1) == Fold(idx, ws2)
  {
    forall uid: int64
      ensures Lookup(Fold(idx, ws1), uid) == Lookup(Fold(idx, ws2), uid)
    {
      FoldPerPost(idx, ws1, uid);
      FoldPerPost(idx, ws2, uid);
      assert ForPost(ws1, uid) == ForPost(ws2, uid);
    }
    SameLookups(Fold(idx, ws1), Fold(idx, ws2));
  }

  lemma SameLookups(a: Index, b: Index)
    requires forall uid :: Lookup(a, uid) == Lookup(b, uid)
    ensures a == b
  {
    forall uid: int64
      ensures uid in a <==> uid in b
      ensures uid in a ==> a[uid] == b[uid]
    {
      assert Lookup(a, uid) == Lookup(b, uid);
    }
  }

  // ---- Clocks ----

  /** Two writes made of one event, or deleting one post: clocks and counts are what their clusters read. */
  predicate SameEvent(v: Write, w: Write) {
    match v
    case Create(e, _) => w.Create? && w.event == e
    case Update(e, _) => w.Update? && w.event == e
    case Delete(uid) => w == v
    case SetStats(uid, _, _) => w.SetStats? && w.postUid == uid
  }

  predicate SameEvents(vs: seq<Write>, ws: seq<Write>) {
    |vs| == |ws| && forall i :: 0 <= i < |vs| ==> SameEvent(vs[i], ws[i])
  }

  predicate SameCounts(vs: seq<Write>, ws: seq<Write>) {
    |vs| == |ws| && forall i :: 0 <= i < |vs| && vs[i].SetStats? && ws[i].SetStats? ==> vs[i].stats == ws[i].stats
  }

  /** Writes that differ at most in the clocks they read. */
  predicate SameButClocks(vs: seq<Write>, ws: seq<Write>) {
    SameEvents(vs, ws) && SameCounts(vs, ws)
  }

  predicate Dated(w: Write) {
    w.Writer() ==> w.event.payload.createdAt.Some?
  }

  /** The write that brought the row into being, if it is one of `ws`, carries a creation time. */
  predicate BirthDated(r: Option<Row>, ws: seq<Write>) {
    if ws == [] then true
    else
      var prev, w := ws[..|ws| - 1], ws[|ws| - 1];
      if w.Delete? then true
      else if w.Writer() && RowFold(r, prev).None? then Dated(w)
      else BirthDated(r, prev)
  }

  /** Rows that differ at most in sync times, in the creation time unless `dated`, in the counts unless `counted`. */
  predicate SameRow(r: Option<Row>, s: Option<Row>, dated: bool, counted: bool) {
    && r.Some? == s.Some?
    && (r.Some? ==>
          s.value == r.value.(
            syncedAt := s.value.syncedAt,
            updatedAt := s.value.updatedAt,
            createdAt := if dated then r.value.createdAt else s.value.createdAt,
            stats := if counted then r.value.stats else s.value.stats))
  }

  predicate SameButTimes(r: Option<Row>, s: Option<Row>) {
    SameRow(r, s, true, true)
  }

  /** What two clusters that apply the same events to one post agree on. */
  lemma {:induction false} RowsAgree(r: Option<Row>, vs: seq<Write>, ws: seq<Write>)
    requires SameEvents(vs, ws)
    ensures SameRow(RowFold(r, vs), RowFold(r, ws), BirthDated(r, vs), SameCounts(vs, ws))
    ensures BirthDated(r, vs) == BirthDated(r, ws)
  {
    if vs != [] {
      var n := |vs| - 1;
      assert SameEvent(vs[n], ws[n]);
      RowsAgree(r, vs[..n], ws[..n]);
      assert SameCounts(vs, ws) ==> SameCounts(vs[..n], ws[..n]);
    }
  }

  function Later(ws: seq<Write>): (vs: seq<Write>)
    ensures SameButClocks(ws, vs)
  {
    seq(|ws|, i requires 0 <= i < |ws| => if ws[i].Delete? then ws[i] else ws[i].(now := ws[i].now + 1))
  }

  lemma LaterInit(ws: seq<Write>)
    requires ws != []
    ensures Later(ws)[..|ws| - 1] == Later(ws[..|ws| - 1])
  {
  }

  /** A row born of an undated write takes its creation time from the clock. */
  lemma {:induction false} LaterShifts(r: Option<Row>, ws: seq<Write>)
    requires !BirthDated(r, ws)
    ensures RowFold(r, ws).Some? && RowFold(r, Later(ws)).Some?
    ensures RowFold(r, Later(ws)).value.createdAt == RowFold(r, ws).value.createdAt + 1
  {
    var n := |ws| - 1;
    LaterInit(ws);
    RowsAgree(r, ws[..n], Later(ws[..n]));
    if !(ws[n].Writer() && RowFold(r, ws[..n]).None?) {
      LaterShifts(r, ws[..n]);
    }
  }

  /** Whatever clocks are read, the row is the same up to its sync times. */
  ghost predicate RowClockFree(r: Option<Row>, ws: seq<Write>) {
    forall vs :: SameButClocks(ws, vs) ==> SameButTimes(RowFold(r, ws), RowFold(r, vs))
  }

  lemma RowClockFreeIff(r: Option<Row>, ws: seq<Write>)
    ensures RowClockFree(r, ws) <==> BirthDated(r, ws)
  {
    if BirthDated(r, ws) {
      forall vs | SameButClocks(ws, vs)
        ensures SameButTimes(RowFold(r, ws), RowFold(r, vs))
      {
        RowsAgree(r, ws, vs);
      }
    } else {
      LaterShifts(r, ws);
      assert SameButClocks(ws, Later(ws));
    }
  }

  /** Two clusters that receive the same writes per post and read their own clocks. */
  ghost predicate SamePerPost(ws1: seq<Write>, ws2: seq<Write>) {
    forall uid :: SameButClocks(ForPost(ws1, uid), ForPost(ws2, uid))
  }

  ghost predicate SameRows(a: Index, b: Index) {
    forall uid :: SameButTimes(Lookup(a, uid), Lookup(b, uid))
  }

  /** They agree on every column but the sync times of every row that was not born of an undated write. */
  lemma ConvergenceAcrossClocks(idx: Index, ws1: seq<Write>, ws2: seq<Write>)
    requires SamePerPost(ws1, ws2)
    ensures forall uid ::
              SameRow(Lookup(Fold(idx, ws1), uid), Lookup(Fold(idx, ws2), uid),
                      BirthDated(Lookup(idx, uid), ForPost(ws1, uid)), true)
  {
    forall uid: int64
      ensures SameRow(Lookup(Fold(idx, ws1), uid), Lookup(Fold(idx, ws2), uid),
                      BirthDated(Lookup(idx, uid), ForPost(ws1, uid)), true)
    {
      FoldPerPost(idx, ws1, uid);
      FoldPerPost(idx, ws2, uid);
      assert SameButClocks(ForPost(ws1, uid), ForPost(ws2, uid));
      RowsAgree(Lookup(idx, uid), ForPost(ws1, uid), ForPost(ws2, uid));
    }
  }

  lemma {:induction false} ForPostLater(ws: seq<Write>, uid: int64)
    ensures ForPost(Later(ws), uid) == Later(ForPost(ws, uid))
  {
    if ws != [] {
      LaterInit(ws);
      ForPostLater(ws[..|ws| - 1], uid);
    }
  }

  ghost predicate ClockFree(idx: Index, ws: seq<Write>) {
    forall vs :: SamePerPost(ws, vs) ==> SameRows(Fold(idx, ws), Fold(idx, vs))
  }

  ghost predicate AllBirthsDated(idx: Index, ws: seq<Write>) {
    forall uid :: BirthDated(Lookup(idx, uid), ForPost(ws, uid))
  }

  /** Clocks show in nothing but sync times exactly when every row that is born carries a creation time. */
  lemma ClockFreeIff(idx: Index, ws: seq<Write>)
    ensures ClockFree(idx, ws) <==> AllBirthsDated(idx, ws)
  {
    if AllBirthsDated(idx, ws) {
      forall vs | SamePerPost(ws, vs)
        ensures SameRows(Fold(idx, ws), Fold(idx, vs))
      {
        ConvergenceAcrossClocks(idx, ws, vs);
      }
    } else {
      var uid :| !BirthDated(Lookup(idx, uid), ForPost(ws, uid));
      UndatedBirthShows(idx, ws, uid);
    }
  }

  lemma UndatedBirthShows(idx: Index, ws: seq<Write>, uid: int64)
    requires !BirthDated(Lookup(idx, uid), ForPost(ws, uid))
    ensures !ClockFree(idx, ws)
  {
    forall u
      ensures SameButClocks(ForPost(ws, u), ForPost(Later(ws), u))
    {
      ForPostLater(ws, u);
    }
    assert SamePerPost(ws, Later(ws));
    FoldPerPost(idx, ws, uid);
    FoldPerPost(idx, Later(ws), uid);
    ForPostLater(ws, uid);
    LaterShifts(Lookup(idx, uid), ForPost(ws, uid));
    assert !SameButTimes(Lookup(Fold(idx, ws), uid), Lookup(Fold(idx, Later(ws)), uid));
  }

  // ---- Closed form ----

  /** The last deletion, or -1. */
  predicate LastDelete(ws: seq<Write>, d: int) {
    && -1 <= d < |ws|
    && (d >= 0 ==> ws[d].Delete?)
    && (forall i :: d < i < |ws| ==> !ws[i].Delete?)
  }

  predicate FirstWriter(ws: seq<Write>, d: int, f: int) {
    && -1 <= d < f < |ws| && ws[f].Writer()
    && (forall i :: d < i < f ==> !ws[i].Writer())
  }

  predicate LastWriter(ws: seq<Write>, d: int, l: int) {
    && -1 <= d < l < |ws| && ws[l].Writer()
    && (forall i :: l < i < |ws| ==> !ws[i].Writer())
  }

  /** The write that set the author: the last create, or the first writer where none was a create. */
  predicate AuthorWriter(ws: seq<Write>, d: int, f: int, a: int) {
    && 0 <= f <= a < |ws| && ws[a].Writer()
    && (a != f ==> ws[a].Create?)
    && (forall i :: a < i < |ws| ==> !ws[i].Create?)
  }

  /** The last stats write after row creation, or -1. */
  predicate LastStats(ws: seq<Write>, f: int, s: int) {
    && (s == -1 || (0 <= f < s < |ws| && ws[s].SetStats?))
    && (forall i :: 0 <= f < i < |ws| && s < i ==> !ws[i].SetStats?)
  }

  /** Every column of a row, as the columns of the writes that last set it. */
  function ClosedRow(ws: seq<Write>, f: int, l: int, a: int, s: int): Row
    requires 0 <= f < |ws| && 0 <= l < |ws| && 0 <= a < |ws| && -1 <= s < |ws|
    requires ws[f].Writer() && ws[l].Writer() && ws[a].Writer() && (s >= 0 ==> ws[s].SetStats?)
  {
    Row(
      AuthorOf(ws[a].event),
      ContentOf(ws[l].event),
      if s >= 0 then ws[s].stats else NO_STATS,
      ComplianceOf(ws[f].event),
      [],
      CreatedAtOf(ws[f].event, ws[f].now),
      ws[l].now,
      if s > l then ws[s].now else ws[l].now)
  }

  /** A row is there exactly when a create or an update follows the last delete. */
  predicate RowIsWritten(ws: seq<Write>, d: int)
    requires -1 <= d
  {
    RowFold(None, ws).Some? <==> WrittenSince(ws, d)
  }

  predicate WrittenSince(ws: seq<Write>, d: int)
    requires -1 <= d
  {
    exists i :: d < i < |ws| && ws[i].Writer()
  }

  /**
   Compliance and creation time are those of the first such write, content that of the last,
   the author that of the last create (or of the first write), and the counts those of the last
   stats write after the first one, or zero.
   */
  ghost predicate ColumnsAreClosed(ws: seq<Write>, d: int) {
    forall f, l, a, s ::
      FirstWriter(ws, d, f) && LastWriter(ws, d, l) && AuthorWriter(ws, d, f, a) && LastStats(ws, f, s) ==>
      RowFold(None, ws) == Some(ClosedRow(ws, f, l, a, s))
  }

  lemma {:induction false} RowOnceWritten(ws: seq<Write>, d: int)
    requires LastDelete(ws, d)
    ensures RowIsWritten(ws, d)
  {
    if ws != [] && d < |ws| - 1 {
      var n := |ws| - 1;
      RowOnceWritten(ws[..n], d);
      WriterBefore(ws, d);
    }
  }

  lemma WriterBefore(ws: seq<Write>, d: int)
    requires -1 <= d < |ws| - 1
    ensures WrittenSince(ws, d) <==> ws[|ws| - 1].Writer() || WrittenSince(ws[..|ws| - 1], d)
  {
    var p := ws[..|ws| - 1];
    if WrittenSince(p, d) {
      var i :| d < i < |p| && p[i].Writer();
      assert ws[i].Writer();
    }
    if WrittenSince(ws, d) {
      var i :| d < i < |ws| && ws[i].Writer();
      assert i < |p| ==> p[i].Writer();
    }
  }

  /** Every sequence of writes leaves the row the closed form describes. */
  lemma {:induction false} ClosedForm(ws: seq<Write>, d: int)
    requires LastDelete(ws, d)
    ensures RowIsWritten(ws, d) && ColumnsAreClosed(ws, d)
  {
    RowOnceWritten(ws, d);
    if ws != [] && d < |ws| - 1 {
      RowOnceWritten(ws[..|ws| - 1], d);
      ClosedForm(ws[..|ws| - 1], d);
      ColumnsStep(ws, d);
    }
  }

  lemma ColumnsStep(ws: seq<Write>, d: int)
    requires LastDelete(ws, d) && d < |ws| - 1
    requires RowIsWritten(ws[..|ws| - 1], d) && ColumnsAreClosed(ws[..|ws| - 1], d)
    ensures ColumnsAreClosed(ws, d)
  {
    forall f, l, a, s | FirstWriter(ws, d, f) && LastWriter(ws, d, l) && AuthorWriter(ws, d, f, a) && LastStats(ws, f, s)
      ensures RowFold(None, ws) == Some(ClosedRow(ws, f, l, a, s))
    {
      if f == |ws| - 1 {
        FirstRow(ws, d, l, a, s);
      } else {
        LaterRow(ws, d, f, l, a, s);
      }
    }
  }

  lemma FirstRow(ws: seq<Write>, d: int, l: int, a: int, s: int)
    requires -1 <= d < |ws| - 1 && RowIsWritten(ws[..|ws| - 1], d)
    requires var n := |ws| - 1;
             FirstWriter(ws, d, n) && LastWriter(ws, d, l) && AuthorWriter(ws, d, n, a) && LastStats(ws, n, s)
    ensures RowFold(None, ws) == Some(ClosedRow(ws, |ws| - 1, l, a, s))
  {
    NoWriterNoRow(ws, d);
    NewRow(ws, d, l, a, s);
  }

  /** The writes the closed form speaks of exist once there is a first writer. */
  lemma Witnesses(ws: seq<Write>, d: int, f: int) returns (l: int, a: int, s: int)
    requires LastDelete(ws, d) && FirstWriter(ws, d, f)
    ensures LastWriter(ws, d, l) && AuthorWriter(ws, d, f, a) && LastStats(ws, f, s)
  {
    var n := |ws|;
    l := n - 1;
    while !ws[l].Writer()
      invariant f <= l < n && forall i :: l < i < n ==> !ws[i].Writer()
      decreases l
    {
      l := l - 1;
    }
    a := n - 1;
    while a != f && !ws[a].Create?
      invariant f <= a < n && forall i :: a < i < n ==> !ws[i].Create?
      decreases a
    {
      a := a - 1;
    }
    s := n - 1;
    while s > f && !ws[s].SetStats?
      invariant f <= s < n && forall i :: s < i < n ==> !ws[i].SetStats?
      decreases s
    {
      s := s - 1;
    }
    if s == f {
      s := -1;
    }
  }

  lemma LastWriterMoves(ws: seq<Write>, d: int, l0: int, l: int)
    requires ws != [] && LastWriter(ws[..|ws| - 1], d, l0) && LastWriter(ws, d, l)
    ensures l == if ws[|ws| - 1].Writer() then |ws| - 1 else l0
  {
    var p := ws[..|ws| - 1];
    assert p[l0] == ws[l0];
    assert l < |p| ==> p[l] == ws[l];
  }

  lemma AuthorWriterMoves(ws: seq<Write>, d: int, f: int, a0: int, a: int)
    requires ws != [] && f < |ws| - 1 && AuthorWriter(ws[..|ws| - 1], d, f, a0) && AuthorWriter(ws, d, f, a)
    ensures a == if ws[|ws| - 1].Create? then |ws| - 1 else a0
  {
    var p := ws[..|ws| - 1];
    assert p[a0] == ws[a0];
    assert a < |p| ==> p[a] == ws[a];
  }

  lemma LastStatsMoves(ws: seq<Write>, f: int, s0: int, s: int)
    requires ws != [] && 0 <= f < |ws| - 1 && LastStats(ws[..|ws| - 1], f, s0) && LastStats(ws, f, s)
    ensures s == if ws[|ws| - 1].SetStats? then |ws| - 1 else s0
  {
    var p := ws[..|ws| - 1];
    assert s0 >= 0 ==> p[s0] == ws[s0];
    assert 0 <= s < |p| ==> p[s] == ws[s];
  }

  /** What the last write does to the closed form of the writes before it. */
  lemma ClosedRowMoves(ws: seq<Write>, f: int, l: int, a: int, s: int)
    requires ws != [] && !ws[|ws| - 1].Delete?
    requires var n := |ws| - 1; 0 <= f < n && 0 <= l < n && 0 <= a < n && -1 <= s < n
    requires ws[f].Writer() && ws[l].Writer() && ws[a].Writer() && (s >= 0 ==> ws[s].SetStats?)
    ensures var n, w := |ws| - 1, ws[|ws| - 1];
            RowAfter(Some(ClosedRow(ws[..n], f, l, a, s)), w) ==
            Some(ClosedRow(ws, f, if w.Writer() then n else l, if w.Create? then n else a, if w.SetStats? then n else s))
  {
  }

  lemma LaterRow(ws: seq<Write>, d: int, f: int, l: int, a: int, s: int)
    requires LastDelete(ws, d) && d < f < |ws| - 1 && ColumnsAreClosed(ws[..|ws| - 1], d)
    requires FirstWriter(ws, d, f) && LastWriter(ws, d, l) && AuthorWriter(ws, d, f, a) && LastStats(ws, f, s)
    ensures RowFold(None, ws) == Some(ClosedRow(ws, f, l, a, s))
  {
    var p := ws[..|ws| - 1];
    FirstWriterBefore(ws, d, f);
    var l0, a0, s0 := Witnesses(p, d, f);
    ColumnsAt(p, d, f, l0, a0, s0);
    ClosedRowStep(ws, d, f, l, a, s, l0, a0, s0);
  }

  lemma ColumnsAt(ws: seq<Write>, d: int, f: int, l: int, a: int, s: int)
    requires ColumnsAreClosed(ws, d)
    requires FirstWriter(ws, d, f) && LastWriter(ws, d, l) && AuthorWriter(ws, d, f, a) && LastStats(ws, f, s)
    ensures RowFold(None, ws) == Some(ClosedRow(ws, f, l, a, s))
  {
  }

  /** The last write makes the row. */
  lemma NewRow(ws: seq<Write>, d: int, l: int, a: int, s: int)
    requires ws != [] && RowFold(None, ws[..|ws| - 1]) == None
    requires var n := |ws| - 1;
             FirstWriter(ws, d, n) && LastWriter(ws, d, l) && AuthorWriter(ws, d, n, a) && LastStats(ws, n, s)
    ensures RowFold(None, ws) == Some(ClosedRow(ws, |ws| - 1, l, a, s))
  {
    var n := |ws| - 1;
    assert l == n && a == n && s == -1;
  }

  lemma NoWriterNoRow(ws: seq<Write>, d: int)
    requires -1 <= d < |ws| - 1 && RowIsWritten(ws[..|ws| - 1], d) && FirstWriter(ws, d, |ws| - 1)
    ensures RowFold(None, ws[..|ws| - 1]) == None
  {
  }

  lemma FirstWriterBefore(ws: seq<Write>, d: int, f: int)
    requires LastDelete(ws, d) && d < f < |ws| - 1 && FirstWriter(ws, d, f)
    ensures LastDelete(ws[..|ws| - 1], d) && FirstWriter(ws[..|ws| - 1], d, f)
  {
  }

  /** The row exists before the last write. */
  lemma ClosedRowStep(ws: seq<Write>, d: int, f: int, l: int, a: int, s: int, l0: int, a0: int, s0: int)
    requires LastDelete(ws, d) && f < |ws| - 1
    requires FirstWriter(ws, d, f) && LastWriter(ws, d, l) && AuthorWriter(ws, d, f, a) && LastStats(ws, f, s)
    requires var p := ws[..|ws| - 1];
             && FirstWriter(p, d, f) && LastWriter(p, d, l0) && AuthorWriter(p, d, f, a0) && LastStats(p, f, s0)
             && RowFold(None, p) == Some(ClosedRow(p, f, l0, a0, s0))
    ensures RowFold(None, ws) == Some(ClosedRow(ws, f, l, a, s))
  {
    LastWriterMoves(ws, d, l0, l);
    AuthorWriterMoves(ws, d, f, a0, a);
    LastStatsMoves(ws, f, s0, s);
    assert !ws[|ws| - 1].Delete?;
    ClosedRowMoves(ws, f, l0, a0, s0);
  }

  lemma FirstWriterExists(ws: seq<Write>, d: int, i: int) returns (f: int)
    requires -1 <= d < i < |ws| && ws[i].Writer()
    ensures FirstWriter(ws, d, f)
  {
    f := d + 1;
    while !ws[f].Writer()
      invariant d < f <= i && forall k :: d < k < f ==> !ws[k].Writer()
      decreases i - f
    {
      f := f + 1;
    }
  }

  /** Every column, as the column of the write that last set it. */
  ghost predicate ColumnsOf(row: Row, ws: seq<Write>, f: int, l: int, a: int, s: int)
    requires 0 <= f < |ws| && 0 <= l < |ws| && 0 <= a < |ws| && -1 <= s < |ws|
    requires ws[f].Writer() && ws[l].Writer() && ws[a].Writer() && (s >= 0 ==> ws[s].SetStats?)
  {
    && Shows(row, ws[l].event.payload) && WrittenBy(row, ws[a].event.payload) && Declares(row, ws[f].event.metadata)
    && CreatedAt(row, ws[f].event.payload, ws[f].now)
    && row.stats == (if s >= 0 then ws[s].stats else Stats(0, 0, 0, 0)) && row.mentions == []
    && row.syncedAt == ws[l].now && row.updatedAt == (if s > l then ws[s].now else ws[l].now)
  }

  lemma ClosedRowColumns(ws: seq<Write>, f: int, l: int, a: int, s: int)
    requires 0 <= f < |ws| && 0 <= l < |ws| && 0 <= a < |ws| && -1 <= s < |ws|
    requires ws[f].Writer() && ws[l].Writer() && ws[a].Writer() && (s >= 0 ==> ws[s].SetStats?)
    ensures ColumnsOf(ClosedRow(ws, f, l, a, s), ws, f, l, a, s)
  {
    ShowsContentOf(ws[l].event, ClosedRow(ws, f, l, a, s));
  }

  /** Some write since `d` made the row, and every column is the one the closed form names. */
  ghost predicate ClosedFrom(ws: seq<Write>, d: int, row: Row) {
    exists f, l, a, s ::
      && FirstWriter(ws, d, f) && LastWriter(ws, d, l) && AuthorWriter(ws, d, f, a) && LastStats(ws, f, s)
      && ColumnsOf(row, ws, f, l, a, s)
  }

  /** Whenever the row is there, the closed form names it. */
  lemma ClosedFormApplies(ws: seq<Write>, d: int)
    requires LastDelete(ws, d) && RowFold(None, ws).Some?
    ensures ClosedFrom(ws, d, RowFold(None, ws).value)
  {
    ClosedForm(ws, d);
    var i :| d < i < |ws| && ws[i].Writer();
    var f := FirstWriterExists(ws, d, i);
    var l, a, s := Witnesses(ws, d, f);
    ColumnsAt(ws, d, f, l, a, s);
    ClosedRowColumns(ws, f, l, a, s);
  }
}
