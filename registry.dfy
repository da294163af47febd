/**
 The subscription store as a value: the feed registry, the subscriber index
 and the link-preview matrix, the invariant that keeps them consistent, and
 the effect of each membership operation as a function of the old store.
 The class in module Database mutates its own maps and is proved to follow
 these functions.
 */
module Registry {
  import opened Wrappers
  import opened DataTypes

  /** The three indices of the store. */
  datatype Store = Store(
    feeds: map<FeedId, Feed>,
    subscribers: map<SubscriberId, set<FeedId>>,
    lpMap: map<(SubscriberId, FeedId), LinkPreview>)

  const EMPTY: Store := Store(map[], map[], map[])

  /** Every feed is stored under the hash of its own link. */
  ghost predicate KeysMatchLinks(hash: Hasher, feeds: map<FeedId, Feed>)
  {
    forall f :: f in feeds ==> hash(feeds[f].link) == f
  }

  /** A subscriber named in a feed record follows that feed in the index. */
  ghost predicate FeedsListedInIndex(st: Store)
  {
    forall f, s :: f in st.feeds && s in st.feeds[f].subscribers ==>
      s in st.subscribers && f in st.subscribers[s]
  }

  /** A feed followed in the index exists and names the subscriber. */
  ghost predicate IndexListedInFeeds(st: Store)
  {
    forall s, f :: s in st.subscribers && f in st.subscribers[s] ==>
      f in st.feeds && s in st.feeds[f].subscribers
  }

  /** Feeds without subscribers and subscribers without feeds are not kept. */
  ghost predicate NoEmptySets(st: Store)
  {
    && (forall f :: f in st.feeds ==> st.feeds[f].subscribers != {})
    && (forall s :: s in st.subscribers ==> st.subscribers[s] != {})
  }

  /** A link-preview setting exists exactly for each current subscription. */
  ghost predicate PreviewsMatchSubscriptions(st: Store)
  {
    && (forall k :: k in st.lpMap ==> k.0 in st.subscribers && k.1 in st.subscribers[k.0])
    && (forall s, f :: s in st.subscribers && f in st.subscribers[s] ==> (s, f) in st.lpMap)
  }

  ghost predicate Consistent(hash: Hasher, st: Store)
  {
    && KeysMatchLinks(hash, st.feeds)
    && FeedsListedInIndex(st)
    && IndexListedInFeeds(st)
    && NoEmptySets(st)
    && PreviewsMatchSubscriptions(st)
  }

  predicate IsSubscribed(st: Store, s: SubscriberId, fid: FeedId)
  {
    s in st.subscribers && fid in st.subscribers[s]
  }

  /** Subscribing again with the stored setting changes nothing and is refused. */
  predicate IsAlreadySubscribed(st: Store, s: SubscriberId, fid: FeedId, lp: LinkPreview)
  {
    IsSubscribed(st, s, fid) && (s, fid) in st.lpMap && st.lpMap[(s, fid)] == lp
  }

  /** The record a first subscription to a link creates. */
  function NewFeed(hash: Hasher, rssLink: string, rss: Rss): Feed
  {
    Feed(rssLink, rss.title, 0, {}, ItemHashes(hash, rss.items))
  }

  /**
   The store after a subscription that was not refused: the subscriber
   follows the feed, a feed met for the first time is created from the
   fetched content, and the setting for the pair is the requested one.
   */
  function Subscribed(hash: Hasher, st: Store, s: SubscriberId, rssLink: string, rss: Rss, lp: LinkPreview): (r: Store)
    ensures IsSubscribed(r, s, hash(rssLink))
    ensures hash(rssLink) in r.feeds && s in r.feeds[hash(rssLink)].subscribers
    ensures (s, hash(rssLink)) in r.lpMap && r.lpMap[(s, hash(rssLink))] == lp
    ensures hash(rssLink) !in st.feeds ==>
      r.feeds[hash(rssLink)] == Feed(rssLink, rss.title, 0, {s}, ItemHashes(hash, rss.items))
    ensures hash(rssLink) in st.feeds ==>
      var old_ := st.feeds[hash(rssLink)];
      var new_ := r.feeds[hash(rssLink)];
      new_.link == old_.link && new_.title == old_.title && new_.errorCount == old_.errorCount
      && new_.hashList == old_.hashList && new_.subscribers == old_.subscribers + {s}
    ensures r.subscribers[s] == (if s in st.subscribers then st.subscribers[s] else {}) + {hash(rssLink)}
    ensures r.feeds - {hash(rssLink)} == st.feeds - {hash(rssLink)}
    ensures r.subscribers - {s} == st.subscribers - {s}
    ensures r.lpMap - {(s, hash(rssLink))} == st.lpMap - {(s, hash(rssLink))}
    ensures Consistent(hash, st) ==> Consistent(hash, r)
  {
    var fid := hash(rssLink);
    var feed := if fid in st.feeds then st.feeds[fid] else NewFeed(hash, rssLink, rss);
    var followed := if s in st.subscribers then st.subscribers[s] else {};
    Store(
      st.feeds[fid := feed.(subscribers := feed.subscribers + {s})],
      st.subscribers[s := followed + {fid}],
      st.lpMap[(s, fid) := lp])
  }

  /**
   The store after subscriber s stops following every feed in fids: s leaves
   those feeds, a feed left without subscribers is deleted, s leaves the
   index (and is deleted from it when it follows nothing more), and the
   settings of the ended pairs are dropped. One unsubscription is the case
   of a single feed; deleting a subscriber is the case of all its feeds.
   */
  function Unsubscribed(st: Store, s: SubscriberId, fids: set<FeedId>): (r: Store)
    ensures forall f :: f in fids ==> !IsSubscribed(r, s, f) && (s, f) !in r.lpMap
    ensures forall f :: f in fids && f in r.feeds ==> s !in r.feeds[f].subscribers
    ensures forall f :: f in st.feeds && f in fids ==>
      (f in r.feeds <==> st.feeds[f].subscribers - {s} != {})
    ensures r.feeds.Keys <= st.feeds.Keys
    ensures forall f :: f in r.feeds && f in fids ==>
      r.feeds[f] == st.feeds[f].(subscribers := st.feeds[f].subscribers - {s})
    ensures forall f :: f !in fids ==> (f in r.feeds <==> f in st.feeds)
    ensures forall f :: f in st.feeds && f !in fids ==> r.feeds[f] == st.feeds[f]
    ensures s in r.subscribers <==> s in st.subscribers && st.subscribers[s] - fids != {}
    ensures s in r.subscribers ==> r.subscribers[s] == st.subscribers[s] - fids
    ensures r.subscribers - {s} == st.subscribers - {s}
    ensures forall k :: k in r.lpMap <==> k in st.lpMap && !(k.0 == s && k.1 in fids)
    ensures forall k :: k in r.lpMap ==> r.lpMap[k] == st.lpMap[k]
  {
    Store(
      map f | f in st.feeds && !(f in fids && st.feeds[f].subscribers - {s} == {}) ::
        if f in fids then st.feeds[f].(subscribers := st.feeds[f].subscribers - {s}) else st.feeds[f],
      if s in st.subscribers && st.subscribers[s] - fids != {} then st.subscribers[s := st.subscribers[s] - fids]
      else st.subscribers - {s},
      map k | k in st.lpMap && !(k.0 == s && k.1 in fids) :: st.lpMap[k])
  }

  /** Feed records after subscriber `from` is renamed `to` in the feeds fids. */
  function RelabelledFeeds(feeds: map<FeedId, Feed>, from: SubscriberId, to: SubscriberId, fids: set<FeedId>): map<FeedId, Feed>
  {
    map f | f in feeds ::
      if f in fids then feeds[f].(subscribers := feeds[f].subscribers - {from} + {to}) else feeds[f]
  }

  /**
   after is before with the setting of each pair (from, f), f in fids, moved
   to (to, f): a pair without a setting leaves (to, f) as it was, and every
   setting of another subscriber or another feed is kept.
   */
  ghost predicate SettingsMoved(before: map<(SubscriberId, FeedId), LinkPreview>,
                                after: map<(SubscriberId, FeedId), LinkPreview>,
                                from: SubscriberId, to: SubscriberId, fids: set<FeedId>)
  {
    && (forall k: (SubscriberId, FeedId) :: (k.1 !in fids || (k.0 != from && k.0 != to)) ==>
          (k in after <==> k in before) && (k in after ==> after[k] == before[k]))
    && (forall f :: f in fids && (from, f) in before ==>
          (to, f) in after && after[(to, f)] == before[(from, f)])
    && (forall f :: f in fids && (from, f) !in before ==>
          ((to, f) in after <==> (to, f) in before && from != to)
          && ((to, f) in after ==> after[(to, f)] == before[(to, f)]))
    && (from != to ==> forall f :: f in fids ==> (from, f) !in after)
  }

  /**
   Settings after each pair (from, f) with f in fids is moved to (to, f);
   a pair (from, f) without a setting leaves (to, f) as it was.
   */
  function MovedPreviews(lpMap: map<(SubscriberId, FeedId), LinkPreview>, from: SubscriberId, to: SubscriberId,
                         fids: set<FeedId>): map<(SubscriberId, FeedId), LinkPreview>
  {
    var moved := set f | f in fids && (from, f) in lpMap :: (to, f);
    var dropped := set f | f in fids :: (from, f);
    map k | k in (lpMap.Keys - dropped) + moved ::
      if k in moved then lpMap[(from, k.1)] else lpMap[k]
  }
  /** MovedPreviews moves exactly the settings SettingsMoved describes. */
  lemma MovedPreviewsMoves(lpMap: map<(SubscriberId, FeedId), LinkPreview>, from: SubscriberId, to: SubscriberId,
                           fids: set<FeedId>)
    ensures SettingsMoved(lpMap, MovedPreviews(lpMap, from, to, fids), from, to, fids)
  {
    var r := MovedPreviews(lpMap, from, to, fids);
    var moved := set f | f in fids && (from, f) in lpMap :: (to, f);
    forall f | f in fids && (from, f) in lpMap
      ensures (to, f) in r && r[(to, f)] == lpMap[(from, f)]
    {
      assert (to, f) in moved;
    }
  }


  /**
   The store after subscriber `from` is relabelled as `to`: every feed
   `from` follows names `to` instead, every setting of `from` moves to `to`,
   and `to`'s entry in the index becomes `from`'s old set, replacing what
   `to` followed before.
   */
  function Relabelled(st: Store, from: SubscriberId, to: SubscriberId): (r: Store)
    requires from in st.subscribers
    ensures from != to ==> from !in r.subscribers
    ensures to in r.subscribers && r.subscribers[to] == st.subscribers[from]
    ensures r.subscribers - {from, to} == st.subscribers - {from, to}
    ensures r.feeds.Keys == st.feeds.Keys
    ensures forall f :: f in st.feeds && f in st.subscribers[from] ==>
      r.feeds[f] == st.feeds[f].(subscribers := st.feeds[f].subscribers - {from} + {to})
    ensures forall f :: f in st.feeds && f !in st.subscribers[from] ==> r.feeds[f] == st.feeds[f]
    ensures SettingsMoved(st.lpMap, r.lpMap, from, to, st.subscribers[from])
  {
    var fids := st.subscribers[from];
    MovedPreviewsMoves(st.lpMap, from, to, fids);
    Store(
      RelabelledFeeds(st.feeds, from, to, fids),
      (st.subscribers - {from})[to := fids],
      MovedPreviews(st.lpMap, from, to, fids))
  }

  /** Ending subscriptions keeps the store consistent. */
  lemma UnsubscribedConsistent(hash: Hasher, st: Store, s: SubscriberId, fids: set<FeedId>)
    requires Consistent(hash, st)
    ensures Consistent(hash, Unsubscribed(st, s, fids))
  {
    UnsubscribedFeedSide(st, s, fids);
    UnsubscribedIndexSide(st, s, fids);
    UnsubscribedPreviews(st, s, fids);
    var r := Unsubscribed(st, s, fids);
    forall t | t in r.subscribers
      ensures r.subscribers[t] != {}
    {
      if t != s {
        assert t in st.subscribers - {s};
      }
    }
  }

  lemma UnsubscribedFeedSide(st: Store, s: SubscriberId, fids: set<FeedId>)
    requires FeedsListedInIndex(st)
    ensures FeedsListedInIndex(Unsubscribed(st, s, fids))
  {
    var r := Unsubscribed(st, s, fids);
    forall f, t | f in r.feeds && t in r.feeds[f].subscribers
      ensures t in r.subscribers && f in r.subscribers[t]
    {
      if f in fids {
        assert t != s && t in st.feeds[f].subscribers;
        assert t in st.subscribers - {s};
      } else if t == s {
        assert f in st.subscribers[s] - fids;
      } else {
        assert t in st.subscribers - {s};
      }
    }
  }

  lemma UnsubscribedIndexSide(st: Store, s: SubscriberId, fids: set<FeedId>)
    requires IndexListedInFeeds(st)
    ensures IndexListedInFeeds(Unsubscribed(st, s, fids))
  {
    var r := Unsubscribed(st, s, fids);
    forall t, f | t in r.subscribers && f in r.subscribers[t]
      ensures f in r.feeds && t in r.feeds[f].subscribers
    {
      if t != s {
        assert t in st.subscribers - {s};
        assert t in st.feeds[f].subscribers;
        if f in fids {
          assert t in st.feeds[f].subscribers - {s};
        }
      }
    }
  }

  lemma UnsubscribedPreviews(st: Store, s: SubscriberId, fids: set<FeedId>)
    requires PreviewsMatchSubscriptions(st)
    ensures PreviewsMatchSubscriptions(Unsubscribed(st, s, fids))
  {
    var r := Unsubscribed(st, s, fids);
    forall k | k in r.lpMap
      ensures k.0 in r.subscribers && k.1 in r.subscribers[k.0]
    {
      if k.0 != s {
        assert k.0 in st.subscribers - {s};
      } else {
        assert k.1 in st.subscribers[s] - fids;
      }
    }
    forall t, f | t in r.subscribers && f in r.subscribers[t]
      ensures (t, f) in r.lpMap
    {
      if t != s {
        assert t in st.subscribers - {s};
      }
    }
  }

  /**
   The relabelling as it was evidently meant: `to` keeps what it followed
   and gains what `from` followed, instead of losing its own subscriptions.
   */
  function Merged(st: Store, from: SubscriberId, to: SubscriberId): (r: Store)
    requires from in st.subscribers
    ensures from != to ==> from !in r.subscribers
    ensures to in r.subscribers
    ensures r.subscribers[to] == st.subscribers[from] + (if to in st.subscribers then st.subscribers[to] else {})
    ensures r.subscribers - {from, to} == st.subscribers - {from, to}
    ensures r.feeds.Keys == st.feeds.Keys
    ensures forall f :: f in st.feeds && f in st.subscribers[from] ==>
      r.feeds[f] == st.feeds[f].(subscribers := st.feeds[f].subscribers - {from} + {to})
    ensures forall f :: f in st.feeds && f !in st.subscribers[from] ==> r.feeds[f] == st.feeds[f]
    ensures SettingsMoved(st.lpMap, r.lpMap, from, to, st.subscribers[from])
  {
    var fids := st.subscribers[from];
    MovedPreviewsMoves(st.lpMap, from, to, fids);
    Store(
      RelabelledFeeds(st.feeds, from, to, fids),
      MergedIndex(st, from, to),
      MovedPreviews(st.lpMap, from, to, fids))
  }

  /** Relabelling a subscriber as itself changes nothing. */
  lemma RelabelledOntoItself(hash: Hasher, st: Store, a: SubscriberId)
    requires Consistent(hash, st)
    requires a in st.subscribers
    ensures Relabelled(st, a, a) == st
    ensures Merged(st, a, a) == st
  {
    var fids := st.subscribers[a];
    RelabelledFeedsOntoItself(st.feeds, a, fids);
    MovedPreviewsOntoItself(st.lpMap, a, fids);
    assert a !in st.subscribers - {a} && fids + {} == fids;
    assert (st.subscribers - {a})[a := fids] == st.subscribers;
  }

  lemma RelabelledFeedsOntoItself(feeds: map<FeedId, Feed>, a: SubscriberId, fids: set<FeedId>)
    requires forall f :: f in fids && f in feeds ==> a in feeds[f].subscribers
    ensures RelabelledFeeds(feeds, a, a, fids) == feeds
  {
    var r := RelabelledFeeds(feeds, a, a, fids);
    forall f | f in feeds
      ensures r[f] == feeds[f]
    {
      if f in fids {
        assert feeds[f].subscribers - {a} + {a} == feeds[f].subscribers;
      }
    }
  }

  lemma MovedPreviewsOntoItself(lpMap: map<(SubscriberId, FeedId), LinkPreview>, a: SubscriberId, fids: set<FeedId>)
    ensures MovedPreviews(lpMap, a, a, fids) == lpMap
  {
    var r := MovedPreviews(lpMap, a, a, fids);
    var moved := set f | f in fids && (a, f) in lpMap :: (a, f);
    forall k | k in lpMap
      ensures k in r && r[k] == lpMap[k]
    {
      if k.0 == a && k.1 in fids {
        assert k in moved;
      }
    }
  }

  /** Relabelling onto an identity that follows nothing keeps the store consistent. */
  lemma RelabelledConsistent(hash: Hasher, st: Store, from: SubscriberId, to: SubscriberId)
    requires Consistent(hash, st)
    requires from in st.subscribers
    requires from == to || to !in st.subscribers
    ensures Consistent(hash, Relabelled(st, from, to))
  {
    if from == to {
      RelabelledOntoItself(hash, st, from);
    } else {
      MergedConsistent(hash, st, from, to);
      RelabelledOntoNewcomer(st, from, to);
    }
  }

  /** Onto an identity that follows nothing, replacing and merging agree. */
  lemma RelabelledOntoNewcomer(st: Store, from: SubscriberId, to: SubscriberId)
    requires from in st.subscribers
    requires to !in st.subscribers
    ensures Relabelled(st, from, to) == Merged(st, from, to)
  {
    var fids := st.subscribers[from];
    var rest := st.subscribers - {from};
    assert to !in rest;
    assert fids + {} == fids;
  }

  /** Merging one subscriber into another keeps the store consistent whatever `to` followed. */
  lemma MergedConsistent(hash: Hasher, st: Store, from: SubscriberId, to: SubscriberId)
    requires Consistent(hash, st)
    requires from in st.subscribers
    ensures Consistent(hash, Merged(st, from, to))
  {
    if from == to {
      RelabelledOntoItself(hash, st, from);
    } else {
      MergedFeedSide(hash, st, from, to);
      MergedFeedRecords(hash, st, from, to);
      MergedIndexSide(hash, st, from, to);
      MergedPreviews(hash, st, from, to);
    }
  }

  /**
   The index a merge leaves: `from` is gone and `to` follows what it
   followed before together with what `from` followed.
   */
  function MergedIndex(st: Store, from: SubscriberId, to: SubscriberId): map<SubscriberId, set<FeedId>>
    requires from in st.subscribers
  {
    var rest := st.subscribers - {from};
    rest[to := st.subscribers[from] + (if to in rest then rest[to] else {})]
  }

  lemma MergedFeedSide(hash: Hasher, st: Store, from: SubscriberId, to: SubscriberId)
    requires FeedsListedInIndex(st)
    requires from in st.subscribers && from != to
    ensures FeedsListedInIndex(Merged(st, from, to))
  {
    var fids := st.subscribers[from];
    MergedFeedSideOf(st, Merged(st, from, to), from, to, fids);
  }

  lemma MergedFeedSideOf(st: Store, r: Store, from: SubscriberId, to: SubscriberId, fids: set<FeedId>)
    requires FeedsListedInIndex(st)
    requires from in st.subscribers && from != to && fids == st.subscribers[from]
    requires r.feeds == RelabelledFeeds(st.feeds, from, to, fids)
    requires r.subscribers == MergedIndex(st, from, to)
    ensures FeedsListedInIndex(r)
  {
    forall f, t | f in r.feeds && t in r.feeds[f].subscribers
      ensures t in r.subscribers && f in r.subscribers[t]
    {
      if t != to {
        assert t != from && t in st.feeds[f].subscribers;
        assert t in st.subscribers - {from};
      } else if f !in fids {
        assert to in st.feeds[f].subscribers;
        assert to in st.subscribers - {from};
      }
    }
  }

  lemma MergedFeedRecords(hash: Hasher, st: Store, from: SubscriberId, to: SubscriberId)
    requires KeysMatchLinks(hash, st.feeds)
    requires forall f :: f in st.feeds ==> st.feeds[f].subscribers != {}
    requires from in st.subscribers
    ensures KeysMatchLinks(hash, Merged(st, from, to).feeds)
    ensures forall f :: f in Merged(st, from, to).feeds ==> Merged(st, from, to).feeds[f].subscribers != {}
  {
  }

  lemma MergedIndexSide(hash: Hasher, st: Store, from: SubscriberId, to: SubscriberId)
    requires IndexListedInFeeds(st) && NoEmptySets(st)
    requires from in st.subscribers && from != to
    ensures IndexListedInFeeds(Merged(st, from, to))
    ensures forall t :: t in Merged(st, from, to).subscribers ==> Merged(st, from, to).subscribers[t] != {}
  {
    var fids := st.subscribers[from];
    MergedIndexSideOf(st, Merged(st, from, to), from, to, fids);
  }

  lemma MergedIndexSideOf(st: Store, r: Store, from: SubscriberId, to: SubscriberId, fids: set<FeedId>)
    requires IndexListedInFeeds(st) && NoEmptySets(st)
    requires from in st.subscribers && from != to && fids == st.subscribers[from]
    requires r.feeds == RelabelledFeeds(st.feeds, from, to, fids)
    requires r.subscribers == MergedIndex(st, from, to)
    ensures IndexListedInFeeds(r)
    ensures forall t :: t in r.subscribers ==> r.subscribers[t] != {}
  {
    forall t, f | t in r.subscribers && f in r.subscribers[t]
      ensures f in r.feeds && t in r.feeds[f].subscribers
    {
      if t != to {
        assert t in st.subscribers - {from};
        assert t in st.feeds[f].subscribers;
      } else if f !in fids {
        assert to in st.subscribers - {from};
        assert to in st.feeds[f].subscribers;
      }
    }
    forall t | t in r.subscribers
      ensures r.subscribers[t] != {}
    {
      if t != to {
        assert t in st.subscribers - {from};
      }
    }
  }

  lemma MergedPreviews(hash: Hasher, st: Store, from: SubscriberId, to: SubscriberId)
    requires PreviewsMatchSubscriptions(st)
    requires from in st.subscribers && from != to
    ensures PreviewsMatchSubscriptions(Merged(st, from, to))
  {
    var fids := st.subscribers[from];
    MergedPreviewsOf(st, Merged(st, from, to), from, to, fids);
  }

  lemma MergedPreviewsOf(st: Store, r: Store, from: SubscriberId, to: SubscriberId, fids: set<FeedId>)
    requires PreviewsMatchSubscriptions(st)
    requires from in st.subscribers && from != to && fids == st.subscribers[from]
    requires r.subscribers == MergedIndex(st, from, to)
    requires r.lpMap == MovedPreviews(st.lpMap, from, to, fids)
    ensures PreviewsMatchSubscriptions(r)
  {
    var moved := set f | f in fids && (from, f) in st.lpMap :: (to, f);
    var dropped := set f | f in fids :: (from, f);
    assert r.lpMap.Keys == (st.lpMap.Keys - dropped) + moved;
    forall k | k in r.lpMap
      ensures k.0 in r.subscribers && k.1 in r.subscribers[k.0]
    {
      if k !in moved {
        assert k in st.lpMap && k !in dropped;
        assert k.1 in fids ==> (from, k.1) in dropped;
        assert k.0 in st.subscribers - {from};
      }
    }
    forall t, f | t in r.subscribers && f in r.subscribers[t]
      ensures (t, f) in r.lpMap
    {
      if t == to && f in fids {
        assert (to, f) in moved;
      } else if t == to {
        assert to in st.subscribers - {from};
        assert (to, f) in st.lpMap && (to, f) !in dropped;
      } else {
        assert t in st.subscribers - {from};
        assert (t, f) in st.lpMap && (t, f) !in dropped;
      }
    }
  }

  /** Ending a further subscription after a set of them is ending the union at once. */
  lemma UnsubscribedStep(st: Store, s: SubscriberId, fids: set<FeedId>, f: FeedId)
    ensures Unsubscribed(Unsubscribed(st, s, fids), s, {f}) == Unsubscribed(st, s, fids + {f})
  {
    var mid := Unsubscribed(st, s, fids);
    var two := Unsubscribed(mid, s, {f});
    var one := Unsubscribed(st, s, fids + {f});
    assert two.feeds.Keys == one.feeds.Keys;
    forall g | g in one.feeds
      ensures two.feeds[g] == one.feeds[g]
    {
      if g in fids {
        assert st.feeds[g].subscribers - {s} - {s} == st.feeds[g].subscribers - {s};
      }
    }
    assert two.feeds == one.feeds;
    if s in st.subscribers {
      assert st.subscribers[s] - fids - {f} == st.subscribers[s] - (fids + {f});
    }
    assert two.subscribers == one.subscribers;
    assert two.lpMap == one.lpMap;
  }

  /** Ending no subscription changes nothing, unless s has an empty index entry. */
  lemma UnsubscribedNothing(st: Store, s: SubscriberId)
    requires s in st.subscribers ==> st.subscribers[s] != {}
    ensures Unsubscribed(st, s, {}) == st
  {
    var r := Unsubscribed(st, s, {});
    assert r.feeds == st.feeds;
    assert r.lpMap == st.lpMap;
    if s in st.subscribers {
      assert st.subscribers[s] - {} == st.subscribers[s];
    }
  }

  /**
   Subscribing again with the same arguments right after a subscription is
   refused as already subscribed.
   */
  lemma SubscribeAgainIsRefused(hash: Hasher, st: Store, s: SubscriberId, rssLink: string, rss: Rss, lp: LinkPreview)
    ensures IsAlreadySubscribed(Subscribed(hash, st, s, rssLink, rss, lp), s, hash(rssLink), lp)
  {
  }

  /**
   A subscription that did not exist, immediately ended, leaves the store as
   it was: a feed it created is deleted again, and so is a subscriber entry.
   */
  lemma UnsubscribeUndoesSubscribe(hash: Hasher, st: Store, s: SubscriberId, rssLink: string, rss: Rss, lp: LinkPreview)
    requires Consistent(hash, st)
    requires !IsSubscribed(st, s, hash(rssLink))
    ensures Unsubscribed(Subscribed(hash, st, s, rssLink, rss, lp), s, {hash(rssLink)}) == st
  {
    var fid := hash(rssLink);
    var r := Unsubscribed(Subscribed(hash, st, s, rssLink, rss, lp), s, {fid});
    assert fid in st.feeds ==> s !in st.feeds[fid].subscribers && st.feeds[fid].subscribers != {};
    UndoFeeds(hash, st, s, rssLink, rss, lp);
    assert s in st.subscribers ==> st.subscribers[s] != {};
    UndoIndex(hash, st, s, rssLink, rss, lp);
    UndoPreviews(hash, st, s, rssLink, rss, lp);
    assert r == Store(r.feeds, r.subscribers, r.lpMap);
  }

  lemma UndoFeeds(hash: Hasher, st: Store, s: SubscriberId, rssLink: string, rss: Rss, lp: LinkPreview)
    requires hash(rssLink) in st.feeds ==>
      s !in st.feeds[hash(rssLink)].subscribers && st.feeds[hash(rssLink)].subscribers != {}
    ensures Unsubscribed(Subscribed(hash, st, s, rssLink, rss, lp), s, {hash(rssLink)}).feeds == st.feeds
  {
    var fid := hash(rssLink);
    var mid := Subscribed(hash, st, s, rssLink, rss, lp);
    var r := Unsubscribed(mid, s, {fid});
    if fid in st.feeds {
      assert st.feeds[fid].subscribers + {s} - {s} == st.feeds[fid].subscribers;
      assert r.feeds[fid] == st.feeds[fid];
    } else {
      assert mid.feeds[fid].subscribers - {s} == {};
    }
    assert r.feeds.Keys == st.feeds.Keys;
  }

  lemma UndoIndex(hash: Hasher, st: Store, s: SubscriberId, rssLink: string, rss: Rss, lp: LinkPreview)
    requires s in st.subscribers ==> st.subscribers[s] != {} && hash(rssLink) !in st.subscribers[s]
    ensures Unsubscribed(Subscribed(hash, st, s, rssLink, rss, lp), s, {hash(rssLink)}).subscribers == st.subscribers
  {
    var fid := hash(rssLink);
    var mid := Subscribed(hash, st, s, rssLink, rss, lp);
    if s in st.subscribers {
      assert st.subscribers[s] + {fid} - {fid} == st.subscribers[s];
      assert mid.subscribers[s] - {fid} != {};
      assert mid.subscribers[s := st.subscribers[s]] == st.subscribers;
    } else {
      assert mid.subscribers - {s} == st.subscribers;
    }
  }

  lemma UndoPreviews(hash: Hasher, st: Store, s: SubscriberId, rssLink: string, rss: Rss, lp: LinkPreview)
    requires Consistent(hash, st)
    requires !IsSubscribed(st, s, hash(rssLink))
    ensures Unsubscribed(Subscribed(hash, st, s, rssLink, rss, lp), s, {hash(rssLink)}).lpMap == st.lpMap
  {
    assert (s, hash(rssLink)) !in st.lpMap;
  }

  /** Subscribing one subscriber to one link and unsubscribing it again empties an empty store. */
  lemma SubscribeThenUnsubscribeOnEmpty(hash: Hasher, lp: LinkPreview)
    ensures Unsubscribed(Subscribed(hash, EMPTY, 42, "http://a", Rss("A", []), lp), 42, {hash("http://a")}) == EMPTY
  {
    UnsubscribeUndoesSubscribe(hash, EMPTY, 42, "http://a", Rss("A", []), lp);
  }

  /** Of two subscribers of one feed, the one that stays keeps the feed alive. */
  lemma SecondSubscriberKeepsFeed(hash: Hasher, rss: Rss, lp1: LinkPreview, lp2: LinkPreview)
    ensures
      var fid := hash("http://a");
      var both := Subscribed(hash, Subscribed(hash, EMPTY, 1, "http://a", rss, lp1), 2, "http://a", rss, lp2);
      var r := Unsubscribed(both, 1, {fid});
      && fid in r.feeds && r.feeds[fid].subscribers == {2}
      && r.subscribers == map[2 := {fid}]
      && r.lpMap == map[(2, fid) := lp2]
  {
    var fid := hash("http://a");
    var one := Subscribed(hash, EMPTY, 1, "http://a", rss, lp1);
    var both := Subscribed(hash, one, 2, "http://a", rss, lp2);
    assert {} + {fid} == {fid};
    assert one.subscribers == map[1 := {fid}];
    assert one.lpMap == map[(1, fid) := lp1];
    assert both.feeds[fid].subscribers == {1, 2};
    assert both.subscribers == map[1 := {fid}, 2 := {fid}];
    assert both.lpMap == map[(1, fid) := lp1, (2, fid) := lp2];
    var r := Unsubscribed(both, 1, {fid});
    assert r.subscribers == map[2 := {fid}];
    assert r.lpMap == map[(2, fid) := lp2];
  }

  const SAMPLE_HASH: Hasher := (link: string) => if link == "b" then 1 else 0

  /** Subscriber 1 follows the feed with link "a", subscriber 2 the one with link "b". */
  const SAMPLE: Store := Store(
    map[0 := Feed("a", "A", 0, {1}, []), 1 := Feed("b", "B", 0, {2}, [])],
    map[1 := {0}, 2 := {1}],
    map[(1, 0) := Off, (2, 1) := Off])

  lemma SampleIsConsistent()
    ensures Consistent(SAMPLE_HASH, SAMPLE)
  {
    SampleKeysMatchLinks();
    SampleIndicesAgree();
    SamplePreviewsMatch();
  }

  lemma SampleKeysMatchLinks()
    ensures KeysMatchLinks(SAMPLE_HASH, SAMPLE.feeds)
  {
    assert SAMPLE_HASH("a") == 0 && SAMPLE_HASH("b") == 1;
  }

  lemma SampleIndicesAgree()
    ensures FeedsListedInIndex(SAMPLE) && IndexListedInFeeds(SAMPLE) && NoEmptySets(SAMPLE)
  {
  }

  lemma SamplePreviewsMatch()
    ensures PreviewsMatchSubscriptions(SAMPLE)
  {
  }

  /**
   Relabelling subscriber 1 as subscriber 2, who already follows another
   feed, leaves that feed naming 2 while 2's entry in the index no longer
   lists it: the store was consistent before and is not afterwards.
   */
  lemma RelabelOntoSubscribedBreaksConsistency()
    ensures Consistent(SAMPLE_HASH, SAMPLE)
    ensures !Consistent(SAMPLE_HASH, Relabelled(SAMPLE, 1, 2))
    ensures
      var r := Relabelled(SAMPLE, 1, 2);
      1 in r.feeds && 2 in r.feeds[1].subscribers && 1 !in r.subscribers[2]
  {
    SampleIsConsistent();
    var r := Relabelled(SAMPLE, 1, 2);
    assert r.subscribers[2] == {0};
    assert r.feeds[1] == SAMPLE.feeds[1];
    assert !FeedsListedInIndex(r);
  }

  /** Relabelling in no feed changes no feed record. */
  lemma RelabelledFeedsNone(feeds: map<FeedId, Feed>, from: SubscriberId, to: SubscriberId)
    ensures RelabelledFeeds(feeds, from, to, {}) == feeds
  {
  }

  /** Relabelling in one more feed updates that feed's record alone. */
  lemma RelabelledFeedsStep(feeds: map<FeedId, Feed>, from: SubscriberId, to: SubscriberId, done: set<FeedId>, f: FeedId)
    requires f in feeds
    ensures RelabelledFeeds(feeds, from, to, done + {f})
         == RelabelledFeeds(feeds, from, to, done)[f := feeds[f].(subscribers := feeds[f].subscribers - {from} + {to})]
  {
  }

  /** Moving the settings of no feed changes no setting. */
  lemma MovedPreviewsNone(lpMap: map<(SubscriberId, FeedId), LinkPreview>, from: SubscriberId, to: SubscriberId)
    ensures MovedPreviews(lpMap, from, to, {}) == lpMap
  {
  }

  /**
   Moving the setting of one more feed f removes the pair (from, f) and
   stores its setting under (to, f); without a setting for (from, f)
   nothing changes.
   */
  lemma MovedPreviewsStep(lpMap: map<(SubscriberId, FeedId), LinkPreview>, from: SubscriberId, to: SubscriberId,
                          done: set<FeedId>, f: FeedId)
    requires f !in done
    ensures
      var m := MovedPreviews(lpMap, from, to, done);
      MovedPreviews(lpMap, from, to, done + {f})
        == if (from, f) in m then (m - {(from, f)})[(to, f) := m[(from, f)]] else m
  {
    var m := MovedPreviews(lpMap, from, to, done);
    var n := MovedPreviews(lpMap, from, to, done + {f});
    var moved := set g | g in done && (from, g) in lpMap :: (to, g);
    var dropped := set g | g in done :: (from, g);
    assert (from, f) !in dropped;
    assert (from, f) in lpMap ==> (from, f) in m;
    if (from, f) in m {
      assert (from, f) !in moved;
      var e := (m - {(from, f)})[(to, f) := m[(from, f)]];
      assert n.Keys == e.Keys;
      forall k | k in n
        ensures n[k] == e[k]
      {
      }
    } else {
      assert (from, f) !in lpMap;
      assert n.Keys == m.Keys;
    }
  }

  /**
   The store after the record of a stored feed is replaced by one with the
   same link and the same subscribers (its title, error count or history
   changed).
   */
  function WithFeed(st: Store, fid: FeedId, feed: Feed): (r: Store)
    requires fid in st.feeds
    requires feed.link == st.feeds[fid].link && feed.subscribers == st.feeds[fid].subscribers
    ensures r.feeds.Keys == st.feeds.Keys && r.feeds[fid] == feed
    ensures forall f :: f in st.feeds && f != fid ==> r.feeds[f] == st.feeds[f]
    ensures r.subscribers == st.subscribers && r.lpMap == st.lpMap
  {
    Store(st.feeds[fid := feed], st.subscribers, st.lpMap)
  }

  /** Such a replacement keeps the store consistent. */
  lemma WithFeedConsistent(hash: Hasher, st: Store, fid: FeedId, feed: Feed)
    requires Consistent(hash, st)
    requires fid in st.feeds
    requires feed.link == st.feeds[fid].link && feed.subscribers == st.feeds[fid].subscribers
    ensures Consistent(hash, WithFeed(st, fid, feed))
  {
    var r := WithFeed(st, fid, feed);
    assert forall f :: f in r.feeds ==> r.feeds[f].link == st.feeds[f].link && r.feeds[f].subscribers == st.feeds[f].subscribers;
  }

  /**
   Ending one subscription that both indices record: the pair leaves both,
   the feed or the subscriber entry is deleted when its set becomes empty,
   and the pair's setting is dropped.
   */
  lemma UnsubscribedOne(st: Store, s: SubscriberId, fid: FeedId)
    requires IsSubscribed(st, s, fid)
    requires fid in st.feeds && s in st.feeds[fid].subscribers
    ensures
      var feed := st.feeds[fid].(subscribers := st.feeds[fid].subscribers - {s});
      var rest := st.subscribers[s] - {fid};
      Unsubscribed(st, s, {fid}) == Store(
        if feed.subscribers == {} then st.feeds - {fid} else st.feeds[fid := feed],
        if rest == {} then st.subscribers - {s} else st.subscribers[s := rest],
        st.lpMap - {(s, fid)})
  {
    var r := Unsubscribed(st, s, {fid});
    var feed := st.feeds[fid].(subscribers := st.feeds[fid].subscribers - {s});
    var feeds := if feed.subscribers == {} then st.feeds - {fid} else st.feeds[fid := feed];
    assert r.feeds.Keys == feeds.Keys;
    assert r.feeds == feeds;
    assert r.lpMap == st.lpMap - {(s, fid)};
  }

  /** Ending some subscriptions leaves every other subscription of s recorded in both indices. */
  lemma UnsubscribedKeepsOthers(st: Store, s: SubscriberId, fids: set<FeedId>, f: FeedId)
    requires IndexListedInFeeds(st)
    requires IsSubscribed(st, s, f) && f !in fids
    ensures IsSubscribed(Unsubscribed(st, s, fids), s, f)
    ensures f in Unsubscribed(st, s, fids).feeds && s in Unsubscribed(st, s, fids).feeds[f].subscribers
  {
    var r := Unsubscribed(st, s, fids);
    assert f in st.feeds && s in st.feeds[f].subscribers;
    assert f in r.feeds && r.feeds[f] == st.feeds[f];
    assert f in st.subscribers[s] - fids;
  }
}
