# rssbot subscription store — a Dafny model

This project models the subscription store of rssbot, `src/data.rs`. The store holds three in-memory indices:

- the **feed registry**: feed id ↦ feed record (link, title, error count, subscriber set, item-hash history);
- the **subscriber index**: subscriber id ↦ set of feed ids;
- the **link-preview matrix**: (subscriber, feed) ↦ link-preview setting.

Mutating operations keep these indices consistent with each other. The **change detector** (`update`) decides which fetched items are new and keeps a bounded history of item identities. **Snapshot persistence** writes the feed records and the preview triples, and rebuilds all three indices from them when the store is opened.

Layout:

- `wrappers.dfy`: `Option` and `Result`.
- `data_types.dfy` (module `DataTypes`): identities, `Item`, `Rss`, `LinkPreview`, `Feed`, results and error kinds, `FromIvRhash`, `GenItemHash`.
  - The 64-bit hash `get_hash` is a parameter `hash: Hasher` (`string -> U64`) of every operation. It is never assumed injective.
- `registry.dfy` (module `Registry`): the store as a value, `Store`, and its consistency invariant `Consistent`.
  - `Consistent` has five parts:
    1. every feed key is the hash of the feed's link;
    2. a subscriber named in a feed record follows that feed in the index;
    3. a feed followed in the index exists and names the subscriber;
    4. no stored set is empty;
    5. a preview setting exists exactly for each current subscription.
  - This module also holds the value-level functions describing the store after each mutation (`Subscribed`, `Unsubscribed`, `Relabelled`, `WithFeed`) and the lemmas about them.
- `change_detector.dfy` (module `ChangeDetector`): `NewItems`, `RebuiltHistory` and their properties.
- `persistence.dfy` (module `Persistence`): the `Snapshot`, the projection predicate `ProjectionOf`, the rebuild (`Rebuild`, `Rebuilt`), and the save/open round trip.
- `database.dfy` (module `Database`): class `Database`, the object the bot mutates.
  - It has the three maps as fields.
  - Each membership method (`Subscribe`, `Unsubscribe`, `DeleteSubscriber`, `UpdateSubscriber`) ensures that its new `State()` is the corresponding `Registry` function of the old state.
  - The counter, title and history methods (`IncErrorCount`, `ResetErrorCount`, `UpdateTitle`, `Update`) state the new feed registry as the old one with a single record replaced and the other two maps unchanged. `Registry.WithFeed` is that replacement as a value, and `Registry.WithFeedConsistent` is used to show they keep the store consistent.
  - A ghost log `writes` records every write of the file, in order, as the store it carried. Each method's contract states how many writes it makes: `Create` one, `Subscribe` and `Unsubscribe` one unless refused, `DeleteSubscriber` one per feed the subscriber followed, `Update` one exactly when new items were found, and the counter, title, preview and relabelling methods none.
  - Whether a file write succeeds is a boolean parameter `saveOk`. What the file holds when the store is opened is a `StoredFile` parameter.

## Model

| member | source | states |
|---|---|---|
| DataTypes.FromIvRhash | src/data.rs:51-58 | 0 decodes to Off and only 0 does; the 64-bit maximum decodes to On and only it does; every other value v decodes to InstantView(v), so an instant-view payload is never 0 or the maximum |
| DataTypes.GenItemHash | src/data.rs:320-326 | an item's identity is the hash of its id when present, otherwise the hash of title followed by link, with absent parts read as "" |
| DataTypes.FallbackSharesIdSpace | src/data.rs:320-326 | an id-less item with title t and link l gets the same identity as an item whose id is t++l; a link-only item and a title-only item with the same text share an identity |
| DataTypes.ItemHashes | src/data.rs:156 | the history a new feed starts with holds one identity per fetched item, in order |
| Registry.Subscribed | src/data.rs:139-164 | after a subscription that is not refused: both indices record the pair; the setting is the requested one; a new feed is (link, rss title, 0 errors, {s}, identities of the fetched items); an existing feed keeps link, title, error count and history; nothing outside the pair changes; consistency is preserved |
| Registry.Unsubscribed | src/data.rs:173-201 | after s ends the subscriptions fids: s leaves those feeds and the index; a feed left without subscribers and an empty subscriber entry are deleted; the ended pairs lose their settings; every other feed, subscriber entry and setting is unchanged |
| Registry.UnsubscribedConsistent | src/data.rs:169-214 | ending subscriptions preserves all five parts of consistency |
| Registry.UnsubscribeUndoesSubscribe | src/data.rs:132-204 | on a consistent store, subscribing to a feed not yet followed and then unsubscribing from it restores the exact store; a created feed and a created subscriber entry are removed again |
| Registry.SubscribeThenUnsubscribeOnEmpty | src/data.rs:132-204 | one subscription and its unsubscription on an empty store give the empty store |
| Registry.SecondSubscriberKeepsFeed | src/data.rs:188-201 | when one of two subscribers of a feed leaves, the feed survives with the other as its only subscriber |
| Registry.UnsubscribedStep | src/data.rs:206-214 | ending one more subscription after a set of them is the same as ending the union, so deleting a subscriber feed by feed ends all its subscriptions at once |
| Registry.UnsubscribedNothing | src/data.rs:206-214 | ending no subscription leaves the store unchanged (for a subscriber with no empty index entry) |
| Registry.UnsubscribedOne | src/data.rs:173-201 | for one feed recorded in both indices, the store after unsubscribing is: the feed's record without s (deleted if now empty), s's entry without the feed (deleted if now empty), the pair's setting dropped |
| Registry.UnsubscribedKeepsOthers | src/data.rs:206-214 | ending some of s's subscriptions leaves each other subscription of s recorded in both indices |
| Registry.Relabelled | src/data.rs:216-229 | after relabelling from as to: `from` is gone from the index; `to`'s entry is `from`'s old set, replacing what `to` had; every other entry is kept; the registry has the same keys, each feed `from` followed has subscribers minus `from` plus `to` and keeps its link, title, error count and history, and every other feed is unchanged; the settings satisfy `SettingsMoved`: each setting of `from` for those feeds moves to `to`, a pair without a setting leaves `to`'s setting as it was, and the settings of other subscribers and other feeds are kept |
| Registry.RelabelledOntoItself | src/data.rs:216-229 | relabelling a subscriber as itself changes nothing (both as written and merged) |
| Registry.RelabelledConsistent | src/data.rs:216-229 | relabelling preserves consistency when `to` follows nothing yet (or equals `from`) |
| Registry.RelabelledOntoNewcomer | src/data.rs:228 | when `to` follows nothing yet, replacing `to`'s entry and merging into it agree |
| Registry.RelabelOntoSubscribedBreaksConsistency | src/data.rs:228 | concrete store where subscriber 1, relabelled as subscriber 2 who follows another feed, leaves that feed naming 2 while 2's index entry no longer lists it |
| Registry.Merged | src/data.rs:216-229 | corrected relabelling: `to`'s entry becomes the union of its old set and `from`'s; the other entries, the feed records and the settings change exactly as for `Relabelled` (the same record clause and `SettingsMoved`) |
| Registry.MergedConsistent | src/data.rs:216-229 | the merged relabelling preserves consistency whatever `to` followed |
| Registry.RelabelledFeedsStep | src/data.rs:218-223 | relabelling in one more feed updates only that feed's record, to subscribers minus `from` plus `to` |
| Registry.MovedPreviewsMoves | src/data.rs:224-226 | moving the settings of `from` for a set of feeds meets `SettingsMoved`: moved values arrive at `to`, `to` keeps its own setting where `from` had none, and the settings of other subscribers and other feeds are untouched |
| Registry.MovedPreviewsStep | src/data.rs:224-226 | moving one more feed's setting removes (from, f) and stores its value under (to, f); without a setting nothing changes |
| Registry.SubscribeAgainIsRefused | src/data.rs:145-149 | right after a subscription, the same subscription with the same setting meets the refusal condition |
| Registry.WithFeed | src/data.rs:106-123 | replacing a stored record by one with the same link and subscribers changes only that record |
| Registry.WithFeedConsistent | src/data.rs:267-273 | such a replacement (title, error count or history) preserves consistency |
| ChangeDetector.NewItemsMembership | src/data.rs:242-248 | an item is reported new exactly when it was fetched and its identity is not in the old history |
| ChangeDetector.NewItemsAppend | src/data.rs:242-248 | new items of a + b are the new items of a followed by those of b, so fetched order is kept |
| ChangeDetector.NewItemsOccurrences | src/data.rs:242-248 | a new item is reported as often as it was fetched (repeats within one fetch all come back); a known one is never reported |
| ChangeDetector.NoNewItemsIffAllKnown | src/data.rs:242-249 | a poll reports nothing exactly when every fetched identity is already in the history |
| ChangeDetector.NewItems | src/data.rs:242-248 | the reference definition of the detection loop: the fetched items, in order, whose identity is not in the old history; never more than were fetched (its meaning is stated by the lemmas below) |
| ChangeDetector.RebuiltHistory | src/data.rs:249-260 | the rebuilt history is the identities of the new items, in order, followed by the oldest-kept entries of the old history, cut so that the whole is min(2·\|items\|, \|new\| + \|history\|) long; it contains the identity of every reported item |
| ChangeDetector.PollExample | src/data.rs:242-260 | with history [h1, h2] and fetched identities [h3, h1], only the h3 item is reported and the history becomes [h3, h1, h2] |
| ChangeDetector.RepollCanReannounce | src/data.rs:245 | as written, an item seen on the first poll can be reported again on the second identical poll |
| ChangeDetector.IntendedHistory | src/data.rs:242-260 | corrected history: the identities of all fetched items, in order, followed by the old history cut to at most \|items\| entries; it contains every fetched identity |
| ChangeDetector.IntendedRepollReportsNothing | src/data.rs:242-260 | with the corrected history, polling the same items again right away reports nothing |
| Persistence.Rebuilt | src/data.rs:353-370 | the store an open rebuilds: keys match links; every listed record's id is stored and every stored record is a listed one; each subscriber named by a listed record follows that record's feed, and no index entry is empty; every listed pair has a setting and every setting is a listed triple |
| Persistence.Rebuild | src/data.rs:357-370 | rebuilding feed by feed and triple by triple computes exactly `Rebuilt` |
| Persistence.Enroll | src/data.rs:359-364 | entering a feed's subscribers one at a time adds that feed to each of their entries |
| Persistence.RebuildFeedsSpec | src/data.rs:357-366 | the rebuilt registry stores each feed under the hash of its link; every listed feed's id is present; every record came from the list; with distinct ids, each listed feed is the stored one |
| Persistence.RebuildSubscribersSpec | src/data.rs:357-366 | a subscriber follows a feed in the rebuilt index exactly when a listed record with that id names it; no entry is empty |
| Persistence.RebuildPreviewsSpec | src/data.rs:368-370 | every listed pair has a setting and every setting is a listed triple |
| Persistence.RebuiltIsBidirectional | src/data.rs:357-366 | from a snapshot without repeated feed ids, the rebuilt registry and index agree in both directions and keys match links |
| Persistence.RoundTrip | src/data.rs:288-295 | opening what saving a consistent store wrote gives back the same registry, index and settings |
| Persistence.RoundTripFeeds | src/data.rs:357-366 | the rebuilt registry equals the saved one |
| Persistence.RoundTripIndex | src/data.rs:357-366 | the rebuilt index equals the saved one |
| Persistence.RoundTripFollows | src/data.rs:357-366 | the rebuilt index has s following f exactly when the saved index had |
| Persistence.RoundTripPreviews | src/data.rs:368-370 | the rebuilt settings equal the saved ones |
| Persistence.SameFollows | src/data.rs:359-364 | two indices without empty entries that agree on who follows what are equal |
| Persistence.IdsMembership | src/data.rs:207-211 | an id is among a list's ids exactly when some listed feed's link hashes to it |
| Persistence.IdsNext | src/data.rs:209-211 | walking a list without repeated ids meets each id for the first time |
| Persistence.IdsCount | src/data.rs:207-211 | a list without repeated ids has as many ids as records, so deleting a subscriber makes one unsubscription per followed feed |
| Persistence.IdsCover | src/data.rs:207-211 | a list whose ids lie in fs and cover fs has exactly the ids fs |
| Database.Detect | src/data.rs:242-248 | the detection loop returns exactly `NewItems` and their identities |
| Database.Database.constructor | src/data.rs:332-338 | a store holds the given path, hash and maps |
| Database.Database.Create | src/data.rs:329-344 | a created store is empty and consistent and its write log holds exactly one write, of the empty store; a failed save is `DatabaseSave(path)` |
| Database.Database.Open | src/data.rs:346-383 | missing file: create (one write); unopenable: `DatabaseOpen(path)`; undecodable: `DatabaseFormat`; a decoded snapshot: the maps are `Rebuilt` from it and nothing is written |
| Database.Database.GetAllFeeds | src/data.rs:88-90 | every stored record is listed and every listed one is stored; when keys match links, each id is listed once |
| Database.Database.GetAllSubscribers | src/data.rs:92-94 | exactly the subscribers in the index, each once |
| Database.Database.GetSubscribedFeeds | src/data.rs:96-104 | None exactly when s is not in the index; otherwise the records of exactly the feeds s follows, each once when keys match links |
| Database.Database.LinkPreviewTriples | src/data.rs:289-295 | the settings as triples, each stored setting listed, nothing else |
| Database.Database.GetLinkPreview | src/data.rs:279-285 | a setting is returned exactly when one is stored; in a consistent store exactly when s follows the feed |
| Database.Database.Save | src/data.rs:287-304 | exactly one write is logged, carrying the current store, and nothing else changes; when the write succeeds, the result lists every stored record and setting and nothing else, and is a projection of the store (keys matching links); when it fails, `DatabaseSave(path)` |
| Database.Database.IncErrorCount | src/data.rs:106-115 | a stored feed's count goes up by one and is returned; an unknown link gives 0 and changes nothing; nothing is written |
| Database.Database.ResetErrorCount | src/data.rs:117-123 | a stored feed's count becomes 0; otherwise nothing changes; nothing is written |
| Database.Database.UpdateTitle | src/data.rs:267-273 | a stored feed's title is replaced; otherwise nothing changes; nothing is written |
| Database.Database.UpdateLinkPreview | src/data.rs:275-277 | the pair's setting is stored and the replaced one returned; nothing is written |
| Database.Database.Subscribe | src/data.rs:132-167 | refused with `AlreadySubscribed`, with no change and no write, when already subscribed with the same setting; otherwise the store becomes `Subscribed` and is written once, the result is `LinkPreviewUpdated` exactly when the pair had a setting before, and a failed save is reported after the change |
| Database.Database.Unsubscribe | src/data.rs:169-204 | `NotSubscribed` with no change and no write unless the index records the pair; on success the store becomes `Unsubscribed` for the one feed and is written once, and the result is the feed record without s; a feed record missing the pair is refused, without a write, after the index entry was already changed |
| Database.Database.DeleteSubscriber | src/data.rs:206-214 | afterwards s is not in the index, the store is `Unsubscribed` for all feeds s followed, it is still consistent, and one write was made per feed s followed |
| Database.Database.UnsubscribeListed | src/data.rs:209-211 | unsubscribing from each listed feed in turn gives `Unsubscribed` for the listed ids, with one write per listed feed |
| Database.Database.UpdateSubscriber | src/data.rs:216-229 | the store becomes `Relabelled` and nothing is written; consistency is kept when `to` follows nothing yet |
| Database.Database.Update | src/data.rs:231-265 | unknown link: returns [] and changes nothing; otherwise the count is reset and the result is `NewItems` of the old history; when there are new items the history becomes `RebuiltHistory` and the store is written once, otherwise the history is kept and nothing is written |
| Database.Database.ReplaceHistory | src/data.rs:252-260 | only the given feed's history is replaced; consistency is kept; nothing is written |

## Left out

- Writing and reading the file (`File::create`, `serde_json`, `Path::exists`) is left out. Whether the write succeeds is the parameter `saveOk`, and what the file holds is a `StoredFile` parameter.
- The write log records the store each write carried, not the bytes written. What a failed write leaves in the file is not modelled.
- Mutations are not rolled back when a save fails. The model keeps this behaviour of the source.
- The `Rc<RefCell<…>>` wrapper `Database` (src/data.rs:307-455) is left out because it only delegates. Its `create` and `open` are modelled as `Create` and `Open`.
- The unused `Hub` record is left out.
- Fetching and parsing feeds is not part of this model. Only the `Item` and `Rss` shapes are kept.
- The internals of `DefaultHasher` are left out. The hash is an uninterpreted parameter, so a collision between two links or two items is possible in the model, as in the source.
- Hash-map iteration order is not modelled. Wherever the source iterates a map or set, the model picks an arbitrary remaining element, and the contracts hold for every order.
- Database.Database.IncErrorCount: does not model the 32-bit overflow at the maximum count. It requires the count to be below the maximum.
- Database.Database.DeleteSubscriber: requires the whole store to be consistent. The source only needs each followed feed to be stored (src/data.rs:100), but its inner unsubscriptions do not behave as a deletion on an inconsistent store.
- Database.Database.DeleteSubscriber: every inner unsubscription uses the same `saveOk`. The source ignores their outcomes anyway.
- Database.Database.UpdateSubscriber: requires `from` to be in the index and every feed it follows to be stored. The source panics otherwise (src/data.rs:217, 220).
- Database.Database.GetSubscribedFeeds: requires every feed s follows to be stored. The source panics otherwise (src/data.rs:100).
- Database.Database.Open: a decoded snapshot is not checked for consistency, as in the source. `RoundTrip` shows that files written by `Save` give back a consistent store.
- Database.Database.Update: ignores the save outcome, as the source does (src/data.rs:262).
- The commented-out `is_subscribed` is not modelled.

In two places the code does something other than what the store evidently means to do. The model follows the code:

- The rebuilt history holds the hashes of the *new* items only (src/data.rs:245), not of all fetched items. An item still in the feed should not be announced twice, but with this history it can be.
- `update_subscriber` *replaces* `to`'s index entry (src/data.rs:228) instead of merging into it. A relabelled subscriber should keep what `to` already followed, and the index should stay consistent with the feed records, but neither holds.

Both are recorded below as findings.

## Findings

| source | as written | input that shows it | evidently intended | confidence | as-written member | corrected member |
|---|---|---|---|---|---|---|
| src/data.rs:242-260 | only the hashes of new items go into the rebuilt history, followed by a prefix of the old history | a feed first stored with items u, v, w, a, then polled twice with items b, a: the first poll reports b and drops a's hash from the history, so the second poll reports a again | history = hashes of all fetched items, then old entries up to 2·\|items\|, so items still in the feed are never re-announced | medium, not executed | ChangeDetector.RepollCanReannounce | ChangeDetector.IntendedRepollReportsNothing |
| src/data.rs:216-229 | `to`'s index entry is overwritten with `from`'s set | subscriber 1 follows feed 0 and subscriber 2 follows feed 1; relabelling 1 as 2 leaves feed 1 naming 2 while 2's entry is {0} | merge `from`'s feeds into `to`'s entry | low, not executed | Registry.RelabelOntoSubscribedBreaksConsistency | Registry.MergedConsistent |
