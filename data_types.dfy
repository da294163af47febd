/**
 The value types of the subscription store: identities, fetched items, the
 link-preview setting, the stored feed record, results and error kinds, and
 the two identity hashes (of a feed link and of a fetched item).
 */
module DataTypes {
  import opened Wrappers

  const U64_MAX: int := 0xFFFF_FFFF_FFFF_FFFF
  const U32_MAX: int := 0xFFFF_FFFF

  type U64 = x: int | 0 <= x <= 0xFFFF_FFFF_FFFF_FFFF
  type U32 = x: int | 0 <= x <= 0xFFFF_FFFF
  type I64 = x: int | -0x8000_0000_0000_0000 <= x <= 0x7FFF_FFFF_FFFF_FFFF

  /** A feed is identified by the hash of its link. */
  type FeedId = U64
  /** A subscriber is a chat or channel identity. */
  type SubscriberId = I64

  /**
   The 64-bit hash the store derives identities from. It is left
   uninterpreted: every operation takes it as a parameter, and nothing
   assumes it is injective.
   */
  type Hasher = string -> U64

  /** One fetched item: every part is optional. */
  datatype Item = Item(id: Option<string>, title: Option<string>, link: Option<string>)

  /** A fetched feed: its title and its items in source order. */
  datatype Rss = Rss(title: string, items: seq<Item>)

  datatype LinkPreview = Off | On | InstantView(rhash: U64)

  /**
   Decodes the preview setting a caller passes as one 64-bit number:
   0 switches previews off, the largest value switches them on, and every
   other value selects that instant-view render hash.
   */
  function FromIvRhash(ivRhash: U64): (lp: LinkPreview)
    ensures lp == Off <==> ivRhash == 0
    ensures lp == On <==> ivRhash == U64_MAX
    ensures lp.InstantView? <==> 0 < ivRhash < U64_MAX
    ensures lp.InstantView? ==> lp.rhash == ivRhash
  {
    if ivRhash == 0 then Off
    else if ivRhash == U64_MAX then On
    else InstantView(ivRhash)
  }

  /** The stored record of one feed. */
  datatype Feed = Feed(
    link: string,
    title: string,
    errorCount: U32,
    subscribers: set<SubscriberId>,
    hashList: seq<U64>)

  datatype SubscriptionResult = NewlySubscribed | LinkPreviewUpdated

  datatype Error =
    | AlreadySubscribed
    | NotSubscribed
    | DatabaseOpen(path: string)
    | DatabaseSave(path: string)
    | DatabaseFormat

  /** An absent part of an item reads as the empty string. */
  function OrEmpty(s: Option<string>): string
  {
    match s
    case Some(v) => v
    case None => ""
  }

  /** The text an item's identity hash is taken of. */
  function ItemKey(item: Item): (key: string)
    ensures item.id.Some? ==> key == item.id.value
    ensures item.id.None? ==> key == OrEmpty(item.title) + OrEmpty(item.link)
  {
    if item.id.Some? then item.id.value else OrEmpty(item.title) + OrEmpty(item.link)
  }

  /**
   The identity of an item: the hash of its identifier when it has one,
   otherwise the hash of its title followed by its link.
   */
  function GenItemHash(hash: Hasher, item: Item): (h: U64)
    ensures h == hash(ItemKey(item))
  {
    match item.id
    case Some(id) => hash(id)
    case None => hash(OrEmpty(item.title) + OrEmpty(item.link))
  }

  /**
   An item without an identifier and an item whose identifier is its title
   followed by its link get the same identity: the two fallbacks share one
   hash space.
   */
  lemma FallbackSharesIdSpace(hash: Hasher, title: string, link: string)
    ensures GenItemHash(hash, Item(None, Some(title), Some(link)))
         == GenItemHash(hash, Item(Some(title + link), None, None))
    ensures GenItemHash(hash, Item(None, None, Some(link)))
         == GenItemHash(hash, Item(None, Some(link), None))
  {
    assert "" + link == link == link + "";
  }

  /** The identities of a sequence of items, in order. */
  function ItemHashes(hash: Hasher, items: seq<Item>): (hs: seq<U64>)
    ensures |hs| == |items|
    ensures forall i :: 0 <= i < |items| ==> hs[i] == GenItemHash(hash, items[i])
  {
    seq(|items|, i requires 0 <= i < |items| => GenItemHash(hash, items[i]))
  }

  /** The identities of one more item are those before it, then its own. */
  lemma ItemHashesSnoc(hash: Hasher, items: seq<Item>, x: Item)
    ensures ItemHashes(hash, items + [x]) == ItemHashes(hash, items) + [GenItemHash(hash, x)]
  {
    assert forall i :: 0 <= i < |items| ==> (items + [x])[i] == items[i];
  }
}
