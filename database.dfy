/**
 The subscription store as the mutable object the bot holds: the feed
 registry, the subscriber index and the link-preview settings, updated in
 place. Each membership operation is specified by the value-level function
 of module Registry that describes the store after it; the counter, title
 and history operations by the replacement of one feed record; and the
 change detector by the functions of module ChangeDetector. Whether writing the file
 succeeds is a parameter (saveOk) of every operation that saves, and a
 ghost log of the writes records when the store saves and what it writes.
 */
module Database {
  import opened Wrappers
  import opened DataTypes
  import opened Registry
  import opened ChangeDetector
  import opened Persistence

  class Database {
    const hash: Hasher
    const path: string
    var feeds: map<FeedId, Feed>
    var subscribers: map<SubscriberId, set<FeedId>>
    var lpMap: map<(SubscriberId, FeedId), LinkPreview>
    /**
     Every write of the file so far, in order, as the store it carried
     (the file receives a snapshot of that store), whether or not the
     write went through.
     */
    ghost var writes: seq<Store>

    /** The three maps as one value. */
    function State(): Store
      reads this
    {
      Store(feeds, subscribers, lpMap)
    }

    /** The indices agree with each other (see Registry.Consistent). */
    ghost predicate Valid()
      reads this
    {
      Consistent(hash, State())
    }

    /** Since the log was before exactly one write happened, and it carried the current store. */
    ghost predicate SavedOnce(before: seq<Store>)
      reads this
    {
      |writes| == |before| + 1 && before <= writes && writes[|before|] == State()
    }

    constructor (hash: Hasher, path: string, st: Store)
      ensures this.hash == hash && this.path == path
      ensures State() == st
      ensures writes == []
    {
      this.hash := hash;
      this.path := path;
      feeds := st.feeds;
      subscribers := st.subscribers;
      lpMap := st.lpMap;
      writes := [];
    }

    /** A new empty store at path, saved once; the save's failure is the creation's. */
    static method Create(hash: Hasher, path: string, saveOk: bool) returns (r: Result<Database, Error>)
      ensures saveOk ==>
        r.Success? && fresh(r.value)
        && r.value.hash == hash && r.value.path == path && r.value.State() == EMPTY && r.value.Valid()
        && r.value.SavedOnce([])
      ensures !saveOk ==> r == Failure(DatabaseSave(path))
    {
      var db := new Database(hash, path, EMPTY);
      var saved := db.Save(saveOk);
      if saved.Failure? {
        return Failure(saved.error);
      }
      return Success(db);
    }

    /**
     Opens the store at path: a missing file creates an empty store, a file
     that cannot be opened or decoded is an error, and a decoded snapshot is
     rebuilt into the three maps.
     */
    static method Open(hash: Hasher, path: string, file: StoredFile, saveOk: bool) returns (r: Result<Database, Error>)
      ensures file.Absent? ==>
        if saveOk then r.Success? && fresh(r.value) && r.value.hash == hash && r.value.path == path
          && r.value.State() == EMPTY && r.value.SavedOnce([])
        else r == Failure(DatabaseSave(path))
      ensures file.Unreadable? ==> r == Failure(DatabaseOpen(path))
      ensures file.Malformed? ==> r == Failure(DatabaseFormat)
      ensures file.Parsed? ==>
        r.Success? && fresh(r.value) && r.value.hash == hash && r.value.path == path
        && r.value.State() == Rebuilt(hash, file.data) && r.value.writes == []
    {
      match file
      case Absent =>
        r := Create(hash, path, saveOk);
      case Unreadable =>
        r := Failure(DatabaseOpen(path));
      case Malformed =>
        r := Failure(DatabaseFormat);
      case Parsed(data) =>
        var st := Rebuild(hash, data);
        var db := new Database(hash, path, st);
        r := Success(db);
    }

    /** Every stored feed record, in some order of the registry. */
    method GetAllFeeds() returns (list: seq<Feed>)
      ensures forall f :: f in feeds ==> feeds[f] in list
      ensures forall i :: 0 <= i < |list| ==> list[i] in feeds.Values
      ensures KeysMatchLinks(hash, feeds) ==> FeedListing(hash, feeds, list)
    {
      list := [];
      ghost var ids: seq<FeedId> := [];
      var keys := feeds.Keys;
      while keys != {}
        invariant keys <= feeds.Keys
        invariant |ids| == |list|
        invariant forall i :: 0 <= i < |ids| ==> ids[i] in feeds && ids[i] !in keys && feeds[ids[i]] == list[i]
        invariant forall f :: f in feeds && f !in keys ==> f in ids
        invariant forall i, j :: 0 <= i < j < |ids| ==> ids[i] != ids[j]
        decreases keys
      {
        var f :| f in keys;
        list := list + [feeds[f]];
        ids := ids + [f];
        keys := keys - {f};
      }
      forall f | f in feeds
        ensures feeds[f] in list
      {
        var i :| 0 <= i < |ids| && ids[i] == f;
        assert list[i] == feeds[f];
      }
    }

    /** Every subscriber in the index, each once. */
    method GetAllSubscribers() returns (list: seq<SubscriberId>)
      ensures forall t :: t in list <==> t in subscribers
      ensures forall i, j :: 0 <= i < j < |list| ==> list[i] != list[j]
    {
      list := [];
      var keys := subscribers.Keys;
      while keys != {}
        invariant keys <= subscribers.Keys
        invariant forall t :: t in list <==> t in subscribers && t !in keys
        invariant forall i, j :: 0 <= i < j < |list| ==> list[i] != list[j]
        decreases keys
      {
        var t :| t in keys;
        list := list + [t];
        keys := keys - {t};
      }
    }

    /**
     The records of the feeds subscriber s follows, or None when s is not in
     the index. Each followed feed must be stored (the source indexes the
     registry without a check).
     */
    method GetSubscribedFeeds(s: SubscriberId) returns (r: Option<seq<Feed>>)
      requires s in subscribers ==> forall f :: f in subscribers[s] ==> f in feeds
      ensures r.None? <==> s !in subscribers
      ensures r.Some? ==> forall f :: f in subscribers[s] ==> feeds[f] in r.value
      ensures r.Some? ==> forall i :: 0 <= i < |r.value| ==>
        exists f :: f in subscribers[s] && r.value[i] == feeds[f]
      ensures r.Some? && KeysMatchLinks(hash, feeds) ==>
        DistinctIds(hash, r.value)
        && (forall i :: 0 <= i < |r.value| ==> hash(r.value[i].link) in subscribers[s])
        && (forall f :: f in subscribers[s] ==> exists i :: 0 <= i < |r.value| && hash(r.value[i].link) == f)
    {
      if s !in subscribers {
        return None;
      }
      var followed := subscribers[s];
      var list: seq<Feed> := [];
      ghost var ids: seq<FeedId> := [];
      var keys := followed;
      while keys != {}
        invariant keys <= followed
        invariant |ids| == |list|
        invariant forall i :: 0 <= i < |ids| ==> ids[i] in followed && ids[i] !in keys && feeds[ids[i]] == list[i]
        invariant forall f :: f in followed && f !in keys ==> f in ids
        invariant forall i, j :: 0 <= i < j < |ids| ==> ids[i] != ids[j]
        decreases keys
      {
        var f :| f in keys;
        list := list + [feeds[f]];
        ids := ids + [f];
        keys := keys - {f};
      }
      forall f | f in followed
        ensures feeds[f] in list
      {
        var i :| 0 <= i < |ids| && ids[i] == f;
        assert list[i] == feeds[f];
      }
      forall i | 0 <= i < |list|
        ensures exists f :: f in followed && list[i] == feeds[f]
      {
        assert ids[i] in followed && list[i] == feeds[ids[i]];
      }
      if KeysMatchLinks(hash, feeds) {
        forall i | 0 <= i < |list|
          ensures hash(list[i].link) == ids[i]
        {
        }
        assert DistinctIds(hash, list);
        forall f | f in followed
          ensures exists i :: 0 <= i < |list| && hash(list[i].link) == f
        {
          var i :| 0 <= i < |ids| && ids[i] == f;
          assert hash(list[i].link) == f;
        }
      }
      return Some(list);
    }

    /** Every setting as a (subscriber, feed, setting) triple. */
    method LinkPreviewTriples() returns (list: seq<PreviewEntry>)
      ensures PreviewListing(lpMap, list)
    {
      list := [];
      var keys := lpMap.Keys;
      while keys != {}
        invariant keys <= lpMap.Keys
        invariant forall i :: 0 <= i < |list| ==>
          (list[i].0, list[i].1) in lpMap && (list[i].0, list[i].1) !in keys
          && lpMap[(list[i].0, list[i].1)] == list[i].2
        invariant forall k :: k in lpMap && k !in keys ==> (k.0, k.1, lpMap[k]) in list
        decreases keys
      {
        var k :| k in keys;
        list := list + [(k.0, k.1, lpMap[k])];
        keys := keys - {k};
      }
    }

    /** The setting of subscriber s for feed fid, if there is one. */
    function GetLinkPreview(s: SubscriberId, fid: FeedId): (r: Option<LinkPreview>)
      reads this
      ensures r.Some? <==> (s, fid) in lpMap
      ensures r.Some? ==> r.value == lpMap[(s, fid)]
      ensures Valid() ==> (r.Some? <==> IsSubscribed(State(), s, fid))
    {
      if (s, fid) in lpMap then Some(lpMap[(s, fid)]) else None
    }

    /**
     Saving: one write to path of the snapshot of the store, which is
     returned when the write goes through. When it fails the error names
     the path.
     */
    method Save(saveOk: bool) returns (r: Result<Snapshot, Error>)
      modifies this`writes
      ensures SavedOnce(old(writes))
      ensures saveOk ==> r.Success?
      ensures r.Success? ==> forall f :: f in feeds ==> feeds[f] in r.value.feeds
      ensures r.Success? ==> forall i :: 0 <= i < |r.value.feeds| ==> r.value.feeds[i] in feeds.Values
      ensures r.Success? ==> PreviewListing(lpMap, r.value.lp)
      ensures r.Success? && KeysMatchLinks(hash, feeds) ==> ProjectionOf(hash, State(), r.value)
      ensures !saveOk ==> r == Failure(DatabaseSave(path))
    {
      var feedList := GetAllFeeds();
      var lp := LinkPreviewTriples();
      writes := writes + [State()];
      if !saveOk {
        return Failure(DatabaseSave(path));
      }
      return Success(Snapshot(feedList, lp));
    }

    /**
     Counts one more fetch error of the feed at rssLink and returns the new
     count; an unknown link counts nothing and gives 0. The count must not
     be at the 32-bit maximum.
     */
    method IncErrorCount(rssLink: string) returns (n: U32)
      requires hash(rssLink) in feeds ==> feeds[hash(rssLink)].errorCount < U32_MAX
      modifies this
      ensures hash(rssLink) in old(feeds) ==>
        n == old(feeds)[hash(rssLink)].errorCount + 1
        && feeds == old(feeds)[hash(rssLink) := old(feeds)[hash(rssLink)].(errorCount := n)]
      ensures hash(rssLink) !in old(feeds) ==> n == 0 && feeds == old(feeds)
      ensures subscribers == old(subscribers) && lpMap == old(lpMap) && writes == old(writes)
      ensures old(Valid()) ==> Valid()
    {
      var fid := hash(rssLink);
      if fid in feeds {
        var feed := feeds[fid];
        n := feed.errorCount + 1;
        if Valid() {
          WithFeedConsistent(hash, State(), fid, feed.(errorCount := n));
        }
        feeds := feeds[fid := feed.(errorCount := n)];
      } else {
        n := 0;
      }
    }

    /** Clears the error count of the feed at rssLink, if it is stored. */
    method ResetErrorCount(rssLink: string)
      modifies this
      ensures hash(rssLink) in old(feeds) ==>
        feeds == old(feeds)[hash(rssLink) := old(feeds)[hash(rssLink)].(errorCount := 0)]
      ensures hash(rssLink) !in old(feeds) ==> feeds == old(feeds)
      ensures subscribers == old(subscribers) && lpMap == old(lpMap) && writes == old(writes)
      ensures old(Valid()) ==> Valid()
    {
      var fid := hash(rssLink);
      if fid in feeds {
        if Valid() {
          WithFeedConsistent(hash, State(), fid, feeds[fid].(errorCount := 0));
        }
        feeds := feeds[fid := feeds[fid].(errorCount := 0)];
      }
    }

    /** Replaces the title of the feed at rssLink, if it is stored. */
    method UpdateTitle(rssLink: string, newTitle: string)
      modifies this
      ensures hash(rssLink) in old(feeds) ==>
        feeds == old(feeds)[hash(rssLink) := old(feeds)[hash(rssLink)].(title := newTitle)]
      ensures hash(rssLink) !in old(feeds) ==> feeds == old(feeds)
      ensures subscribers == old(subscribers) && lpMap == old(lpMap) && writes == old(writes)
      ensures old(Valid()) ==> Valid()
    {
      var fid := hash(rssLink);
      if fid in feeds {
        if Valid() {
          WithFeedConsistent(hash, State(), fid, feeds[fid].(title := newTitle));
        }
        feeds := feeds[fid := feeds[fid].(title := newTitle)];
      }
    }

    /** Stores the setting of a pair and returns the one it replaced, if any. */
    method UpdateLinkPreview(s: SubscriberId, fid: FeedId, lp: LinkPreview) returns (previous: Option<LinkPreview>)
      modifies this
      ensures previous == if (s, fid) in old(lpMap) then Some(old(lpMap)[(s, fid)]) else None
      ensures lpMap == old(lpMap)[(s, fid) := lp]
      ensures feeds == old(feeds) && subscribers == old(subscribers) && writes == old(writes)
    {
      previous := if (s, fid) in lpMap then Some(lpMap[(s, fid)]) else None;
      lpMap := lpMap[(s, fid) := lp];
    }

    /**
     Subscribes s to the feed at rssLink with setting lp. The same
     subscription with the same setting is refused and changes nothing.
     Otherwise the store becomes Registry.Subscribed, and the result says
     whether the pair had a setting before; a failed save is reported
     after the change has been made.
     */
    method Subscribe(s: SubscriberId, rssLink: string, rss: Rss, lp: LinkPreview, saveOk: bool)
      returns (r: Result<SubscriptionResult, Error>)
      modifies this
      ensures IsAlreadySubscribed(old(State()), s, hash(rssLink), lp) ==>
        r == Failure(AlreadySubscribed) && State() == old(State()) && writes == old(writes)
      ensures !IsAlreadySubscribed(old(State()), s, hash(rssLink), lp) ==>
        State() == Subscribed(hash, old(State()), s, rssLink, rss, lp) && SavedOnce(old(writes))
        && (saveOk ==> r == Success(if (s, hash(rssLink)) in old(lpMap) then LinkPreviewUpdated else NewlySubscribed))
        && (!saveOk ==> r == Failure(DatabaseSave(path)))
      ensures old(Valid()) ==> Valid()
    {
      var fid := hash(rssLink);
      var followed := if s in subscribers then subscribers[s] else {};
      if fid in followed && (s, fid) in lpMap && lpMap[(s, fid)] == lp {
        return Failure(AlreadySubscribed);
      }
      subscribers := subscribers[s := followed + {fid}];
      var feed := if fid in feeds then feeds[fid] else Feed(rssLink, rss.title, 0, {}, ItemHashes(hash, rss.items));
      feeds := feeds[fid := feed.(subscribers := feed.subscribers + {s})];
      var previous := UpdateLinkPreview(s, fid, lp);
      var result := if previous.None? then NewlySubscribed else LinkPreviewUpdated;
      var saved := Save(saveOk);
      if saved.Failure? {
        return Failure(saved.error);
      }
      return Success(result);
    }

    /**
     Ends the subscription of s to the feed at rssLink. Without such a
     subscription in the index it is refused and changes nothing. Otherwise
     the index entry is removed first; if the feed record then turns out
     not to name s the operation is refused with the index already changed
     (this cannot happen in a valid store). On success the store becomes
     Registry.Unsubscribed for that one feed, and the result is the feed
     record with s removed; a failed save is reported after the change.
     */
    method Unsubscribe(s: SubscriberId, rssLink: string, saveOk: bool) returns (r: Result<Feed, Error>)
      modifies this
      ensures !IsSubscribed(old(State()), s, hash(rssLink)) ==>
        r == Failure(NotSubscribed) && State() == old(State()) && writes == old(writes)
      ensures (IsSubscribed(old(State()), s, hash(rssLink))
               && !(hash(rssLink) in old(feeds) && s in old(feeds)[hash(rssLink)].subscribers)) ==>
        r == Failure(NotSubscribed) && feeds == old(feeds) && lpMap == old(lpMap) && writes == old(writes)
        && subscribers == Unsubscribed(old(State()), s, {hash(rssLink)}).subscribers
      ensures (IsSubscribed(old(State()), s, hash(rssLink))
               && hash(rssLink) in old(feeds) && s in old(feeds)[hash(rssLink)].subscribers) ==>
        State() == Unsubscribed(old(State()), s, {hash(rssLink)}) && SavedOnce(old(writes))
        && (saveOk ==> r == Success(old(feeds)[hash(rssLink)].(subscribers := old(feeds)[hash(rssLink)].subscribers - {s})))
        && (!saveOk ==> r == Failure(DatabaseSave(path)))
      ensures old(Valid()) ==> Valid()
    {
      ghost var st0 := State();
      var fid := hash(rssLink);
      if !(s in subscribers && fid in subscribers[s]) {
        return Failure(NotSubscribed);
      }
      if fid in feeds && s in feeds[fid].subscribers {
        UnsubscribedOne(st0, s, fid);
        if Consistent(hash, st0) {
          UnsubscribedConsistent(hash, st0, s, {fid});
        }
      }
      var rest := subscribers[s] - {fid};
      if rest == {} {
        subscribers := subscribers - {s};
      } else {
        subscribers := subscribers[s := rest];
      }
      if !(fid in feeds && s in feeds[fid].subscribers) {
        if old(Valid()) {
          assert false;
        }
        return Failure(NotSubscribed);
      }
      var feed := feeds[fid].(subscribers := feeds[fid].subscribers - {s});
      if feed.subscribers == {} {
        feeds := feeds - {fid};
      } else {
        feeds := feeds[fid := feed];
      }
      lpMap := lpMap - {(s, fid)};
      var saved := Save(saveOk);
      if saved.Failure? {
        return Failure(saved.error);
      }
      return Success(feed);
    }

    /**
     Ends every subscription of s, one feed at a time, ignoring each
     outcome. Afterwards s follows nothing and the store is
     Registry.Unsubscribed for all the feeds s followed.
     */
    method DeleteSubscriber(s: SubscriberId, saveOk: bool)
      requires Valid()
      modifies this
      ensures Valid()
      ensures s !in subscribers
      ensures State() == Unsubscribed(old(State()), s, if s in old(subscribers) then old(subscribers)[s] else {})
      ensures |writes| == |old(writes)| + (if s in old(subscribers) then |old(subscribers)[s]| else 0)
      ensures old(writes) <= writes
    {
      ghost var st0 := State();
      var listed := GetSubscribedFeeds(s);
      if listed.None? {
        UnsubscribedNothing(st0, s);
        return;
      }
      var list := listed.value;
      UnsubscribeListed(s, list, saveOk);
      IdsCover(hash, list, st0.subscribers[s]);
      IdsCount(hash, list);
      UnsubscribedConsistent(hash, st0, s, st0.subscribers[s]);
    }

    /**
     The loop of DeleteSubscriber: ends the subscription of s to each listed
     feed in turn, ignoring each outcome.
     */
    method UnsubscribeListed(s: SubscriberId, list: seq<Feed>, saveOk: bool)
      requires IndexListedInFeeds(State()) && NoEmptySets(State()) && DistinctIds(hash, list)
      requires forall i :: 0 <= i < |list| ==> IsSubscribed(State(), s, hash(list[i].link))
      modifies this
      ensures State() == Unsubscribed(old(State()), s, Ids(hash, list))
      ensures |writes| == |old(writes)| + |list| && old(writes) <= writes
    {
      ghost var st0 := State();
      UnsubscribedNothing(st0, s);
      for i := 0 to |list|
        invariant State() == Unsubscribed(st0, s, Ids(hash, list[..i]))
        invariant |writes| == |old(writes)| + i && old(writes) <= writes
      {
        IdsNext(hash, list, i);
        var fid := hash(list[i].link);
        UnsubscribedKeepsOthers(st0, s, Ids(hash, list[..i]), fid);
        UnsubscribedStep(st0, s, Ids(hash, list[..i]), fid);
        var ignored := Unsubscribe(s, list[i].link, saveOk);
      }
      assert list[..|list|] == list;
    }

    /**
     Relabels subscriber `from` as `to` (a chat that changed identity):
     each feed `from` follows names `to` instead, each setting of `from`
     moves to `to`, and `to`'s index entry becomes `from`'s old set. `from`
     must be in the index and every feed it follows must be stored.
     */
    method UpdateSubscriber(from: SubscriberId, to: SubscriberId)
      requires from in subscribers
      requires forall f :: f in subscribers[from] ==> f in feeds
      modifies this
      ensures State() == Relabelled(old(State()), from, to) && writes == old(writes)
      ensures old(Valid()) && (from == to || to !in old(subscribers)) ==> Valid()
    {
      ghost var st0 := State();
      var fids := subscribers[from];
      subscribers := subscribers - {from};
      RelabelledFeedsNone(st0.feeds, from, to);
      MovedPreviewsNone(st0.lpMap, from, to);
      var remaining := fids;
      while remaining != {}
        invariant remaining <= fids
        invariant feeds == RelabelledFeeds(st0.feeds, from, to, fids - remaining)
        invariant lpMap == MovedPreviews(st0.lpMap, from, to, fids - remaining)
        invariant subscribers == st0.subscribers - {from}
        invariant writes == old(writes)
        decreases remaining
      {
        var f :| f in remaining;
        ghost var done := fids - remaining;
        RelabelledFeedsStep(st0.feeds, from, to, done, f);
        MovedPreviewsStep(st0.lpMap, from, to, done, f);
        var feed := feeds[f];
        feeds := feeds[f := feed.(subscribers := feed.subscribers - {from} + {to})];
        if (from, f) in lpMap {
          var lp := lpMap[(from, f)];
          lpMap := (lpMap - {(from, f)})[(to, f) := lp];
        }
        assert done + {f} == fids - (remaining - {f});
        remaining := remaining - {f};
      }
      assert fids - remaining == fids;
      subscribers := subscribers[to := fids];
      assert State() == Relabelled(st0, from, to);
      if old(Valid()) && (from == to || to !in old(subscribers)) {
        RelabelledConsistent(hash, st0, from, to);
      }
    }

    /**
     The change detector. For an unknown link it returns nothing and changes
     nothing. Otherwise it clears the feed's error count and returns, in
     fetched order, the items whose identity is not in the feed's history;
     when there are any, the history becomes ChangeDetector.RebuiltHistory
     and the store is saved once, ignoring a failed write; otherwise nothing
     is written.
     */
    method Update(rssLink: string, items: seq<Item>, saveOk: bool) returns (result: seq<Item>)
      modifies this
      ensures hash(rssLink) !in old(feeds) ==> result == [] && State() == old(State())
      ensures result == [] ==> writes == old(writes)
      ensures result != [] ==> SavedOnce(old(writes))
      ensures hash(rssLink) in old(feeds) ==>
        var feed := old(feeds)[hash(rssLink)];
        result == NewItems(hash, feed.hashList, items)
        && feeds == old(feeds)[hash(rssLink) := feed.(
             errorCount := 0,
             hashList := if result == [] then feed.hashList else RebuiltHistory(hash, feed.hashList, items))]
      ensures subscribers == old(subscribers) && lpMap == old(lpMap)
      ensures old(Valid()) ==> Valid()
    {
      var fid := hash(rssLink);
      if fid !in feeds {
        return [];
      }
      ghost var feed0 := feeds[fid];
      ResetErrorCount(rssLink);
      ghost var reset := feed0.(errorCount := 0);
      assert feeds == old(feeds)[fid := reset];
      var history := feeds[fid].hashList;
      var newHashList;
      result, newHashList := Detect(hash, history, items);
      if result != [] {
        var append := Take(history, 2 * |items| - |newHashList|);
        RebuiltHistoryFrom(hash, history, items, newHashList);
        ReplaceHistory(fid, newHashList + append);
        assert feeds == old(feeds)[fid := reset.(hashList := RebuiltHistory(hash, history, items))];
        var ignored := Save(saveOk);
      }
    }

    /** Replaces the history of the stored feed fid, the last step of a poll that found new items. */
    method ReplaceHistory(fid: FeedId, history: seq<U64>)
      requires fid in feeds
      modifies this
      ensures feeds == old(feeds)[fid := old(feeds)[fid].(hashList := history)]
      ensures subscribers == old(subscribers) && lpMap == old(lpMap) && writes == old(writes)
      ensures old(Valid()) ==> Valid()
    {
      var updated := feeds[fid].(hashList := history);
      if Valid() {
        WithFeedConsistent(hash, State(), fid, updated);
      }
      feeds := feeds[fid := updated];
    }
  }

  /**
   The detection loop of an update: walks the fetched items in order and
   collects each item whose identity is not in the history, with that
   identity.
   */
  method Detect(hash: Hasher, history: seq<U64>, items: seq<Item>) returns (novel: seq<Item>, novelHashes: seq<U64>)
    ensures novel == NewItems(hash, history, items)
    ensures novelHashes == ItemHashes(hash, novel)
  {
    novel := [];
    novelHashes := [];
    for i := 0 to |items|
      invariant novel == NewItems(hash, history, items[..i])
      invariant novelHashes == ItemHashes(hash, novel)
    {
      var h := GenItemHash(hash, items[i]);
      assert items[..i + 1][..i] == items[..i];
      if h !in history {
        ItemHashesSnoc(hash, novel, items[i]);
        novelHashes := novelHashes + [h];
        novel := novel + [items[i]];
      }
    }
    assert items[..|items|] == items;
  }
}
