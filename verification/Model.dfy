/** Sync events, and the GDPR decision made on each of them. */
module Model {
  import opened Utf8
  import opened Wrappers
  import opened Decimal

  type Time = int

  /** A name that a column of n characters takes. */
  predicate NameFits(s: string, n: nat) {
    |s| <= n && forall i :: 0 <= i < |s| ==> s[i] as int != 0
  }

  // The names the services assign fit their columns: VARCHAR(64), VARCHAR(32), VARCHAR(20), VARCHAR(16).
  type EventId = s: string | NameFits(s, 64)
  type TypeName = s: string | NameFits(s, 32)
  type CategoryName = s: string | NameFits(s, 20)
  type Region = s: string | NameFits(s, 16)

  /** An event type as it arrives: `Missing` is the empty string, `OtherType` any unknown one. */
  datatype EventType =
    | PostCreated | PostUpdated | PostDeleted | PostStatsUpdated
    | TagCreated | TagUpdated | TagDeleted | TagStatsUpdated
    | OtherType(name: TypeName)
    | Missing

  datatype Visibility = Global | Regional | Followers | Private | OtherVisibility(name: string)

  /** TIER_1 (PII), TIER_2 (UGC), TIER_3 (System), TIER_4 (Media). */
  datatype DataCategory = Tier1 | Tier2 | Tier3 | Tier4 | OtherCategory(name: CategoryName)

  datatype AuthorProfile = AuthorProfile(nickname: Bytes, avatarUrl: Bytes)

  /** `createdAt` is the parsed creation time, None where it is absent or unreadable. */
  datatype Payload = Payload(
    postUid: int64,
    authorUid: int64,
    authorRegion: Region,
    visibility: Visibility,
    content: Bytes,
    mediaUrls: seq<Bytes>,
    postType: int,
    videoUrl: Bytes,
    videoCoverUrl: Bytes,
    createdAt: Option<Time>,
    authorProfile: Option<AuthorProfile>,
    tagName: Bytes,
    tagPostCount: Option<int64>
  )

  datatype Metadata = Metadata(gdprCompliant: bool, userConsent: bool, category: DataCategory)

  datatype Event = Event(
    id: EventId,
    etype: EventType,
    sourceRegion: Region,
    targetRegion: Region,
    payload: Payload,
    metadata: Metadata
  )

  // ---- GDPR check ----

  datatype Decision =
    | AllowedGlobal | AllowedSystemData
    | DeniedPII | DeniedPrivate | DeniedFollowers | DeniedRegional | DeniedNoConsent | DeniedMedia
  {
    predicate Allowed() {
      AllowedGlobal? || AllowedSystemData?
    }
  }

  /** Deletes and tag events carry identifiers only. */
  predicate CarriesNoContent(t: EventType) {
    t.PostDeleted? || t.TagCreated? || t.TagUpdated? || t.TagDeleted? || t.TagStatsUpdated?
  }

  function Check(e: Event): Decision {
    if CarriesNoContent(e.etype) then AllowedSystemData
    else if e.metadata.category.Tier1? then DeniedPII
    else if e.metadata.category.Tier3? then AllowedSystemData
    else if e.payload.visibility.Private? then DeniedPrivate
    else if e.payload.visibility.Followers? then DeniedFollowers
    else if e.payload.visibility.Regional? then DeniedRegional
    else if !e.payload.visibility.Global? then DeniedPrivate
    else if !e.metadata.userConsent then DeniedNoConsent
    else if e.metadata.category.Tier4? && e.payload.mediaUrls == [] then DeniedMedia
    else AllowedGlobal
  }

  /** Which decision is taken, and so which reason is logged, guard by guard. */
  lemma CheckByGuards(e: Event)
    ensures var t, c, v := e.etype, e.metadata.category, e.payload.visibility;
            var content := !t.PostDeleted? && !t.TagCreated? && !t.TagUpdated? && !t.TagDeleted? && !t.TagStatsUpdated?;
            var shown := content && (c.Tier2? || c.Tier4? || c.OtherCategory?);
            && (Check(e) == DeniedPII <==> content && c.Tier1?)
            && (Check(e) == AllowedSystemData <==> !content || c.Tier3?)
            && (Check(e) == DeniedPrivate <==> shown && (v.Private? || v.OtherVisibility?))
            && (Check(e) == DeniedFollowers <==> shown && v.Followers?)
            && (Check(e) == DeniedRegional <==> shown && v.Regional?)
            && (Check(e) == DeniedNoConsent <==> shown && v.Global? && !e.metadata.userConsent)
            && (Check(e) == DeniedMedia <==> shown && v.Global? && e.metadata.userConsent && c.Tier4? && e.payload.mediaUrls == [])
            && (Check(e) == AllowedGlobal <==> shown && v.Global? && e.metadata.userConsent && (c.Tier4? ==> e.payload.mediaUrls != []))
  {
  }

  /** What the rules promise of content that may leave its region. */
  predicate Compliant(e: Event) {
    && !e.metadata.category.Tier1?
    && (e.metadata.category.Tier3? || (e.payload.visibility.Global? && e.metadata.userConsent))
  }

  /** An event is let through exactly when it has no content, or compliant content and, if it is media, something to show. */
  lemma CheckAllowsExactly(e: Event)
    ensures Check(e).Allowed() <==>
            CarriesNoContent(e.etype) || (Compliant(e) && (e.metadata.category.Tier4? ==> e.payload.mediaUrls != []))
  {
  }

  // ---- Environment of one handler run ----

  datatype Stats = Stats(likes: int, comments: int, shares: int, views: int)

  /** The Regional DB's answer to the stats query. */
  datatype StatsAnswer = QueryFailed | NoRow | Found(stats: Stats)
}
