/**
 Snapshot persistence: the document a save writes (every feed record and
 every link-preview setting), and the indices an open rebuilds from it. The
 subscriber index is never written; it is rebuilt from the feed records.
 Encoding the document and the file system itself are not modelled.
 */
module Persistence {
  import opened DataTypes
  import opened Registry

  /** One persisted link-preview setting: subscriber, feed, setting. */
  type PreviewEntry = (SubscriberId, FeedId, LinkPreview)

  datatype Snapshot = Snapshot(feeds: seq<Feed>, lp: seq<PreviewEntry>)

  /** What opening the store finds at its path. */
  datatype StoredFile = Absent | Unreadable | Malformed | Parsed(data: Snapshot)

  /** No two listed feeds share an identity. */
  ghost predicate DistinctIds(hash: Hasher, list: seq<Feed>)
  {
    forall i, j :: 0 <= i < j < |list| ==> hash(list[i].link) != hash(list[j].link)
  }

  /** The identities of the listed feeds. */
  function Ids(hash: Hasher, list: seq<Feed>): set<FeedId>
  {
    if list == [] then {} else Ids(hash, list[..|list| - 1]) + {hash(Last(list).link)}
  }

  /** An identity is among the listed ones exactly when some listed feed has it. */
  lemma {:induction false} IdsMembership(hash: Hasher, list: seq<Feed>, f: FeedId)
    ensures f in Ids(hash, list) <==> exists i :: 0 <= i < |list| && hash(list[i].link) == f
  {
    if list != [] {
      var init := list[..|list| - 1];
      IdsMembership(hash, init, f);
      if f in Ids(hash, init) {
        var i :| 0 <= i < |init| && hash(init[i].link) == f;
        assert list[i] == init[i];
      }
      if exists i :: 0 <= i < |list| && hash(list[i].link) == f {
        var i :| 0 <= i < |list| && hash(list[i].link) == f;
        if i < |init| {
          assert init[i] == list[i];
        }
      }
    }
  }

  /** Walking a list without repeated identities meets each identity for the first time. */
  lemma IdsNext(hash: Hasher, list: seq<Feed>, i: nat)
    requires i < |list| && DistinctIds(hash, list)
    ensures hash(list[i].link) !in Ids(hash, list[..i])
    ensures Ids(hash, list[..i + 1]) == Ids(hash, list[..i]) + {hash(list[i].link)}
  {
    assert list[..i + 1][..i] == list[..i];
    IdsMembership(hash, list[..i], hash(list[i].link));
  }

  /** A list without repeated identities has as many identities as records. */
  lemma {:induction false} IdsCount(hash: Hasher, list: seq<Feed>)
    requires DistinctIds(hash, list)
    ensures |Ids(hash, list)| == |list|
  {
    if list != [] {
      var init := list[..|list| - 1];
      assert DistinctIds(hash, init) by {
        forall i, j | 0 <= i < j < |init|
          ensures hash(init[i].link) != hash(init[j].link)
        {
          assert init[i] == list[i] && init[j] == list[j];
        }
      }
      IdsCount(hash, init);
      IdsNext(hash, list, |list| - 1);
    }
  }

  /** A list whose identities are all in fs and cover fs has exactly the identities fs. */
  lemma IdsCover(hash: Hasher, list: seq<Feed>, fs: set<FeedId>)
    requires forall i :: 0 <= i < |list| ==> hash(list[i].link) in fs
    requires forall f :: f in fs ==> exists i :: 0 <= i < |list| && hash(list[i].link) == f
    ensures Ids(hash, list) == fs
  {
    forall f
      ensures f in Ids(hash, list) <==> f in fs
    {
      IdsMembership(hash, list, f);
    }
  }

  /** The list holds each stored feed record once, and nothing else. */
  ghost predicate FeedListing(hash: Hasher, feeds: map<FeedId, Feed>, list: seq<Feed>)
  {
    && (forall i :: 0 <= i < |list| ==> hash(list[i].link) in feeds && feeds[hash(list[i].link)] == list[i])
    && (forall f :: f in feeds ==> feeds[f] in list)
    && DistinctIds(hash, list)
  }

  /** The list holds each stored setting as a triple, and nothing else. */
  ghost predicate PreviewListing(lpMap: map<(SubscriberId, FeedId), LinkPreview>, list: seq<PreviewEntry>)
  {
    && (forall i :: 0 <= i < |list| ==> (list[i].0, list[i].1) in lpMap && lpMap[(list[i].0, list[i].1)] == list[i].2)
    && (forall k :: k in lpMap ==> (k.0, k.1, lpMap[k]) in list)
  }

  /** snap is what saving st writes, in some iteration order of its maps. */
  ghost predicate ProjectionOf(hash: Hasher, st: Store, snap: Snapshot)
  {
    FeedListing(hash, st.feeds, snap.feeds) && PreviewListing(st.lpMap, snap.lp)
  }

  function Last<T>(s: seq<T>): T
    requires s != []
  {
    s[|s| - 1]
  }

  /** The feed registry rebuilt from the listed records, each stored under the hash of its link. */
  function RebuildFeeds(hash: Hasher, list: seq<Feed>): map<FeedId, Feed>
  {
    if list == [] then map[]
    else RebuildFeeds(hash, list[..|list| - 1])[hash(Last(list).link) := Last(list)]
  }

  /** The index after every subscriber in subs is entered as following fid. */
  function Enrolled(index: map<SubscriberId, set<FeedId>>, subs: set<SubscriberId>, fid: FeedId): map<SubscriberId, set<FeedId>>
  {
    map t | t in index.Keys + subs ::
      (if t in index then index[t] else {}) + (if t in subs then {fid} else {})
  }

  /** The subscriber index rebuilt from the subscriber sets of the listed records. */
  function RebuildSubscribers(hash: Hasher, list: seq<Feed>): map<SubscriberId, set<FeedId>>
  {
    if list == [] then map[]
    else Enrolled(RebuildSubscribers(hash, list[..|list| - 1]), Last(list).subscribers, hash(Last(list).link))
  }

  /** The link-preview matrix rebuilt from the listed triples. */
  function RebuildPreviews(list: seq<PreviewEntry>): map<(SubscriberId, FeedId), LinkPreview>
  {
    if list == [] then map[]
    else RebuildPreviews(list[..|list| - 1])[(Last(list).0, Last(list).1) := Last(list).2]
  }

  /**
   The store an open rebuilds from a snapshot: each listed record under the
   hash of its link (a later record with the same hash replacing an earlier
   one), each subscriber named by a record following that record's feed,
   and each listed setting.
   */
  function Rebuilt(hash: Hasher, snap: Snapshot): (r: Store)
    ensures KeysMatchLinks(hash, r.feeds)
    ensures forall i :: 0 <= i < |snap.feeds| ==> hash(snap.feeds[i].link) in r.feeds
    ensures forall f :: f in r.feeds ==> r.feeds[f] in snap.feeds
    ensures forall i, t :: 0 <= i < |snap.feeds| && t in snap.feeds[i].subscribers ==>
      t in r.subscribers && hash(snap.feeds[i].link) in r.subscribers[t]
    ensures forall t :: t in r.subscribers ==> r.subscribers[t] != {}
    ensures forall i :: 0 <= i < |snap.lp| ==> (snap.lp[i].0, snap.lp[i].1) in r.lpMap
    ensures forall k :: k in r.lpMap ==> (k.0, k.1, r.lpMap[k]) in snap.lp
  {
    RebuildFeedsSpec(hash, snap.feeds);
    RebuildSubscribersSpec(hash, snap.feeds);
    RebuildPreviewsSpec(snap.lp);
    Store(RebuildFeeds(hash, snap.feeds), RebuildSubscribers(hash, snap.feeds), RebuildPreviews(snap.lp))
  }

  lemma EnrolledNobody(index: map<SubscriberId, set<FeedId>>, fid: FeedId)
    ensures Enrolled(index, {}, fid) == index
  {
    var r := Enrolled(index, {}, fid);
    forall t | t in index
      ensures r[t] == index[t]
    {
      assert index[t] + {} == index[t];
    }
  }

  lemma EnrolledOneMore(index: map<SubscriberId, set<FeedId>>, subs: set<SubscriberId>, t: SubscriberId, fid: FeedId)
    ensures
      var before := Enrolled(index, subs, fid);
      Enrolled(index, subs + {t}, fid)
        == before[t := (if t in before then before[t] else {}) + {fid}]
  {
    var before := Enrolled(index, subs, fid);
    var after := Enrolled(index, subs + {t}, fid);
    var expected := before[t := (if t in before then before[t] else {}) + {fid}];
    assert after.Keys == expected.Keys;
    forall u | u in after
      ensures after[u] == expected[u]
    {
      if u != t {
        assert u in subs + {t} <==> u in subs;
      }
    }
  }

  /** Enters every subscriber in subs as following fid, one at a time. */
  method Enroll(index: map<SubscriberId, set<FeedId>>, subs: set<SubscriberId>, fid: FeedId)
    returns (r: map<SubscriberId, set<FeedId>>)
    ensures r == Enrolled(index, subs, fid)
  {
    r := index;
    EnrolledNobody(index, fid);
    var remaining := subs;
    while remaining != {}
      invariant remaining <= subs
      invariant r == Enrolled(index, subs - remaining, fid)
      decreases remaining
    {
      var t :| t in remaining;
      EnrolledOneMore(index, subs - remaining, t, fid);
      var followed := if t in r then r[t] else {};
      r := r[t := followed + {fid}];
      assert subs - remaining + {t} == subs - (remaining - {t});
      remaining := remaining - {t};
    }
  }

  /**
   Rebuilding the indices from a snapshot, as opening the store does: feed by
   feed, each subscriber of the feed is entered in the index, then the feed
   is stored under the hash of its link; then each setting is stored.
   */
  method Rebuild(hash: Hasher, snap: Snapshot) returns (st: Store)
    ensures st == Rebuilt(hash, snap)
  {
    var feeds: map<FeedId, Feed> := map[];
    var subscribers: map<SubscriberId, set<FeedId>> := map[];
    var lpMap: map<(SubscriberId, FeedId), LinkPreview> := map[];
    for i := 0 to |snap.feeds|
      invariant feeds == RebuildFeeds(hash, snap.feeds[..i])
      invariant subscribers == RebuildSubscribers(hash, snap.feeds[..i])
    {
      var feed := snap.feeds[i];
      var fid := hash(feed.link);
      subscribers := Enroll(subscribers, feed.subscribers, fid);
      feeds := feeds[fid := feed];
      assert snap.feeds[..i + 1][..i] == snap.feeds[..i];
    }
    for i := 0 to |snap.lp|
      invariant lpMap == RebuildPreviews(snap.lp[..i])
    {
      var entry := snap.lp[i];
      lpMap := lpMap[(entry.0, entry.1) := entry.2];
      assert snap.lp[..i + 1][..i] == snap.lp[..i];
    }
    assert snap.feeds[..|snap.feeds|] == snap.feeds;
    assert snap.lp[..|snap.lp|] == snap.lp;
    st := Store(feeds, subscribers, lpMap);
  }

  /** Each rebuilt feed is stored under the hash of its link, and came from the list. */
  lemma {:induction false} RebuildFeedsSpec(hash: Hasher, list: seq<Feed>)
    ensures KeysMatchLinks(hash, RebuildFeeds(hash, list))
    ensures forall i :: 0 <= i < |list| ==> hash(list[i].link) in RebuildFeeds(hash, list)
    ensures forall f :: f in RebuildFeeds(hash, list) ==> RebuildFeeds(hash, list)[f] in list
    ensures DistinctIds(hash, list) ==>
      forall i :: 0 <= i < |list| ==> RebuildFeeds(hash, list)[hash(list[i].link)] == list[i]
  {
    if list != [] {
      var init := list[..|list| - 1];
      RebuildFeedsSpec(hash, init);
      assert list == init + [Last(list)];
    }
  }

  /**
   A subscriber is entered as following a feed exactly when some listed
   record with that identity names it, and no entry is left empty.
   */
  lemma {:induction false} RebuildSubscribersSpec(hash: Hasher, list: seq<Feed>)
    ensures forall i, t :: 0 <= i < |list| && t in list[i].subscribers ==>
      t in RebuildSubscribers(hash, list) && hash(list[i].link) in RebuildSubscribers(hash, list)[t]
    ensures forall t, f :: t in RebuildSubscribers(hash, list) && f in RebuildSubscribers(hash, list)[t] ==>
      exists i :: 0 <= i < |list| && hash(list[i].link) == f && t in list[i].subscribers
    ensures forall t :: t in RebuildSubscribers(hash, list) ==> RebuildSubscribers(hash, list)[t] != {}
  {
    if list != [] {
      var init := list[..|list| - 1];
      RebuildSubscribersSpec(hash, init);
      var r := RebuildSubscribers(hash, list);
      var prev := RebuildSubscribers(hash, init);
      forall t, f | t in r && f in r[t]
        ensures exists i :: 0 <= i < |list| && hash(list[i].link) == f && t in list[i].subscribers
      {
        if t in prev && f in prev[t] {
          var i :| 0 <= i < |init| && hash(init[i].link) == f && t in init[i].subscribers;
          assert list[i] == init[i];
        } else {
          assert hash(list[|list| - 1].link) == f && t in list[|list| - 1].subscribers;
        }
      }
      forall i, t | 0 <= i < |list| && t in list[i].subscribers
        ensures t in r && hash(list[i].link) in r[t]
      {
        if i < |init| {
          assert list[i] == init[i];
        }
      }
    }
  }

  /** Every listed setting has an entry, and every entry is one of the listed triples. */
  lemma {:induction false} RebuildPreviewsSpec(list: seq<PreviewEntry>)
    ensures forall i :: 0 <= i < |list| ==> (list[i].0, list[i].1) in RebuildPreviews(list)
    ensures forall k :: k in RebuildPreviews(list) ==> (k.0, k.1, RebuildPreviews(list)[k]) in list
  {
    if list != [] {
      var init := list[..|list| - 1];
      RebuildPreviewsSpec(init);
      assert list == init + [Last(list)];
    }
  }

  /**
   When no two listed feeds share an identity, the rebuilt subscriber index
   and the rebuilt feed records agree in both directions, and every feed is
   stored under the hash of its link.
   */
  lemma RebuiltIsBidirectional(hash: Hasher, snap: Snapshot)
    requires DistinctIds(hash, snap.feeds)
    ensures KeysMatchLinks(hash, Rebuilt(hash, snap).feeds)
    ensures FeedsListedInIndex(Rebuilt(hash, snap))
    ensures IndexListedInFeeds(Rebuilt(hash, snap))
  {
    var list := snap.feeds;
    var r := Rebuilt(hash, snap);
    RebuildFeedsSpec(hash, list);
    RebuildSubscribersSpec(hash, list);
    forall f, t | f in r.feeds && t in r.feeds[f].subscribers
      ensures t in r.subscribers && f in r.subscribers[t]
    {
      var i :| 0 <= i < |list| && list[i] == r.feeds[f];
    }
    forall t, f | t in r.subscribers && f in r.subscribers[t]
      ensures f in r.feeds && t in r.feeds[f].subscribers
    {
      var i :| 0 <= i < |list| && hash(list[i].link) == f && t in list[i].subscribers;
    }
  }

  /**
   Saving a consistent store and opening what was saved gives back the same
   feed registry, the same subscriber index and the same settings.
   */
  lemma RoundTrip(hash: Hasher, st: Store, snap: Snapshot)
    requires Consistent(hash, st)
    requires ProjectionOf(hash, st, snap)
    ensures Rebuilt(hash, snap) == st
  {
    RoundTripFeeds(hash, st, snap.feeds);
    RoundTripIndex(hash, st, snap.feeds);
    RoundTripPreviews(st.lpMap, snap.lp);
  }

  lemma RoundTripFeeds(hash: Hasher, st: Store, list: seq<Feed>)
    requires KeysMatchLinks(hash, st.feeds)
    requires FeedListing(hash, st.feeds, list)
    ensures RebuildFeeds(hash, list) == st.feeds
  {
    var r := RebuildFeeds(hash, list);
    RebuildFeedsSpec(hash, list);
    forall f | f in st.feeds
      ensures f in r
    {
      var i :| 0 <= i < |list| && list[i] == st.feeds[f];
    }
    forall f | f in r
      ensures f in st.feeds && r[f] == st.feeds[f]
    {
      var i :| 0 <= i < |list| && list[i] == r[f];
    }
  }

  lemma RoundTripIndex(hash: Hasher, st: Store, list: seq<Feed>)
    requires KeysMatchLinks(hash, st.feeds)
    requires FeedsListedInIndex(st) && IndexListedInFeeds(st)
    requires forall t :: t in st.subscribers ==> st.subscribers[t] != {}
    requires FeedListing(hash, st.feeds, list)
    ensures RebuildSubscribers(hash, list) == st.subscribers
  {
    RebuildSubscribersSpec(hash, list);
    RoundTripFollows(hash, st, list);
    SameFollows(RebuildSubscribers(hash, list), st.subscribers);
  }

  /** Two indices without empty entries that agree on who follows what are equal. */
  lemma SameFollows(a: map<SubscriberId, set<FeedId>>, b: map<SubscriberId, set<FeedId>>)
    requires forall t :: t in a ==> a[t] != {}
    requires forall t :: t in b ==> b[t] != {}
    requires forall t, f :: (t in a && f in a[t]) <==> (t in b && f in b[t])
    ensures a == b
  {
    forall t | t in b
      ensures t in a
    {
      var f :| f in b[t];
    }
    forall t | t in a
      ensures t in b && a[t] == b[t]
    {
      var f :| f in a[t];
    }
  }

  /** The rebuilt index has a subscriber following a feed exactly when the saved store had. */
  lemma RoundTripFollows(hash: Hasher, st: Store, list: seq<Feed>)
    requires KeysMatchLinks(hash, st.feeds)
    requires FeedsListedInIndex(st) && IndexListedInFeeds(st)
    requires FeedListing(hash, st.feeds, list)
    ensures forall t, f ::
      (t in RebuildSubscribers(hash, list) && f in RebuildSubscribers(hash, list)[t])
      <==> (t in st.subscribers && f in st.subscribers[t])
  {
    RebuildSubscribersSpec(hash, list);
    FollowsStoredAreRebuilt(hash, st, list, RebuildSubscribers(hash, list));
    FollowsRebuiltAreStored(hash, st, list, RebuildSubscribers(hash, list));
  }

  lemma FollowsStoredAreRebuilt(hash: Hasher, st: Store, list: seq<Feed>, r: map<SubscriberId, set<FeedId>>)
    requires KeysMatchLinks(hash, st.feeds) && IndexListedInFeeds(st)
    requires forall f :: f in st.feeds ==> st.feeds[f] in list
    requires forall i, t :: 0 <= i < |list| && t in list[i].subscribers ==> t in r && hash(list[i].link) in r[t]
    ensures forall t, f :: t in st.subscribers && f in st.subscribers[t] ==> t in r && f in r[t]
  {
    forall t, f | t in st.subscribers && f in st.subscribers[t]
      ensures t in r && f in r[t]
    {
      assert f in st.feeds && st.feeds[f] in list;
      var i :| 0 <= i < |list| && list[i] == st.feeds[f];
    }
  }

  lemma FollowsRebuiltAreStored(hash: Hasher, st: Store, list: seq<Feed>, r: map<SubscriberId, set<FeedId>>)
    requires FeedsListedInIndex(st)
    requires forall i :: 0 <= i < |list| ==> hash(list[i].link) in st.feeds && st.feeds[hash(list[i].link)] == list[i]
    requires forall t, f :: t in r && f in r[t] ==>
      exists i :: 0 <= i < |list| && hash(list[i].link) == f && t in list[i].subscribers
    ensures forall t, f :: t in r && f in r[t] ==> t in st.subscribers && f in st.subscribers[t]
  {
    forall t, f | t in r && f in r[t]
      ensures t in st.subscribers && f in st.subscribers[t]
    {
      var i :| 0 <= i < |list| && hash(list[i].link) == f && t in list[i].subscribers;
    }
  }

  lemma RoundTripPreviews(lpMap: map<(SubscriberId, FeedId), LinkPreview>, list: seq<PreviewEntry>)
    requires PreviewListing(lpMap, list)
    ensures RebuildPreviews(list) == lpMap
  {
    var r := RebuildPreviews(list);
    RebuildPreviewsSpec(list);
    forall k | k in lpMap
      ensures k in r
    {
      var i :| 0 <= i < |list| && list[i] == (k.0, k.1, lpMap[k]);
    }
    forall k | k in r
      ensures k in lpMap && r[k] == lpMap[k]
    {
      var i :| 0 <= i < |list| && list[i] == (k.0, k.1, r[k]);
    }
  }
}
