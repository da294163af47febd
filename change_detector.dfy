/**
 The change detector: which fetched items are new with respect to a feed's
 history of item identities, and the bounded history kept for the next poll.
 */
module ChangeDetector {
  import opened DataTypes

  /**
   The fetched items whose identity is not in the history, in fetched
   order. Membership is tested against the given history only, so an item
   repeated within one fetch is reported each time it occurs.
   */
  function NewItems(hash: Hasher, history: seq<U64>, items: seq<Item>): (novel: seq<Item>)
    ensures |novel| <= |items|
  {
    if items == [] then []
    else
      var last := items[|items| - 1];
      NewItems(hash, history, items[..|items| - 1])
        + (if GenItemHash(hash, last) in history then [] else [last])
  }

  /** The first n entries of s, or all of s when it is shorter. */
  function Take<T>(s: seq<T>, n: nat): (r: seq<T>)
    ensures |r| == if n <= |s| then n else |s|
    ensures forall i :: 0 <= i < |r| ==> r[i] == s[i]
  {
    if n <= |s| then s[..n] else s
  }

  /**
   The history after a poll that found new items: the identities of the new
   items, then as many of the oldest-kept entries of the old history as fit
   under a cap of twice the number of fetched items.
   */
  function RebuiltHistory(hash: Hasher, history: seq<U64>, items: seq<Item>): (r: seq<U64>)
    ensures var n := |NewItems(hash, history, items)|;
      |r| == if n + |history| <= 2 * |items| then n + |history| else 2 * |items|
    ensures |NewItems(hash, history, items)| <= |r|
    ensures r[..|NewItems(hash, history, items)|] == ItemHashes(hash, NewItems(hash, history, items))
    ensures r[|NewItems(hash, history, items)|..] == history[..|r| - |NewItems(hash, history, items)|]
    ensures forall x :: x in NewItems(hash, history, items) ==> GenItemHash(hash, x) in r
  {
    var novel := NewItems(hash, history, items);
    var kept := Take(history, 2 * |items| - |novel|);
    var r := ItemHashes(hash, novel) + kept;
    assert forall x :: x in novel ==> GenItemHash(hash, x) in r by {
      forall x | x in novel
        ensures GenItemHash(hash, x) in r
      {
        var i :| 0 <= i < |novel| && novel[i] == x;
        assert r[i] == GenItemHash(hash, x);
      }
    }
    r
  }

  /** The rebuilt history is the new identities followed by the old history cut to fit. */
  lemma RebuiltHistoryFrom(hash: Hasher, history: seq<U64>, items: seq<Item>, novelHashes: seq<U64>)
    requires novelHashes == ItemHashes(hash, NewItems(hash, history, items))
    ensures novelHashes + Take(history, 2 * |items| - |novelHashes|) == RebuiltHistory(hash, history, items)
  {
  }

  /** An item is reported new exactly when it was fetched and its identity is not in the history. */
  lemma {:induction false} NewItemsMembership(hash: Hasher, history: seq<U64>, items: seq<Item>, x: Item)
    ensures x in NewItems(hash, history, items) <==> x in items && GenItemHash(hash, x) !in history
  {
    if items != [] {
      var init := items[..|items| - 1];
      NewItemsMembership(hash, history, init, x);
      assert items == init + [items[|items| - 1]];
    }
  }

  /** Detection works item by item: polling a + b reports the new items of a, then those of b. */
  lemma {:induction false} NewItemsAppend(hash: Hasher, history: seq<U64>, a: seq<Item>, b: seq<Item>)
    ensures NewItems(hash, history, a + b) == NewItems(hash, history, a) + NewItems(hash, history, b)
  {
    if b == [] {
      assert a + b == a;
    } else {
      var init := b[..|b| - 1];
      NewItemsAppend(hash, history, a, init);
      assert (a + b)[..|a + b| - 1] == a + init;
      assert (a + b)[|a + b| - 1] == b[|b| - 1];
    }
  }

  /**
   Every occurrence of a new item is reported: an item occurs in the result
   as often as in the fetch when its identity is unknown, and never otherwise.
   */
  lemma {:induction false} NewItemsOccurrences(hash: Hasher, history: seq<U64>, items: seq<Item>, x: Item)
    ensures multiset(NewItems(hash, history, items))[x]
         == if GenItemHash(hash, x) in history then 0 else multiset(items)[x]
  {
    if items != [] {
      var init := items[..|items| - 1];
      NewItemsOccurrences(hash, history, init, x);
      assert items == init + [items[|items| - 1]];
    }
  }

  /** A poll reports nothing exactly when every fetched identity is already in the history. */
  lemma NoNewItemsIffAllKnown(hash: Hasher, history: seq<U64>, items: seq<Item>)
    ensures NewItems(hash, history, items) == []
        <==> forall x :: x in items ==> GenItemHash(hash, x) in history
  {
    var novel := NewItems(hash, history, items);
    if novel != [] {
      NewItemsMembership(hash, history, items, novel[0]);
    }
    forall x | x in items && GenItemHash(hash, x) !in history
      ensures novel != []
    {
      NewItemsMembership(hash, history, items, x);
    }
  }

  /**
   One poll worked through: history [h1, h2] and fetched identities
   [h3, h1] with h3 new report only the first item, and the history
   becomes [h3, h1, h2].
   */
  lemma PollExample(hash: Hasher, x: Item, y: Item, h1: U64, h2: U64)
    requires GenItemHash(hash, y) == h1
    requires GenItemHash(hash, x) != h1 && GenItemHash(hash, x) != h2
    ensures NewItems(hash, [h1, h2], [x, y]) == [x]
    ensures RebuiltHistory(hash, [h1, h2], [x, y]) == [GenItemHash(hash, x), h1, h2]
  {
    assert [x, y][..1] == [x];
    assert [x][..0] == [];
  }

  /**
   As written, the rebuilt history holds only the identities of the new
   items before the old history is cut, so an item that stays in the feed
   can fall out of the history and be reported again although it was seen.
   Here a feed first seen with items u, v, w, a is polled twice with b, a:
   the first poll reports b, the second reports a.
   */
  lemma RepollCanReannounce(hash: Hasher, u: Item, v: Item, w: Item, a: Item, b: Item)
    requires GenItemHash(hash, a) != GenItemHash(hash, b)
    requires GenItemHash(hash, a) !in [GenItemHash(hash, u), GenItemHash(hash, v), GenItemHash(hash, w)]
    requires GenItemHash(hash, b) !in [GenItemHash(hash, u), GenItemHash(hash, v), GenItemHash(hash, w)]
    ensures
      var first := ItemHashes(hash, [u, v, w, a]);
      var second := RebuiltHistory(hash, first, [b, a]);
      NewItems(hash, first, [b, a]) == [b] && NewItems(hash, second, [b, a]) == [a]
  {
    var first := ItemHashes(hash, [u, v, w, a]);
    assert first == [GenItemHash(hash, u), GenItemHash(hash, v), GenItemHash(hash, w), GenItemHash(hash, a)];
    assert [b, a][..1] == [b];
    assert [b][..0] == [];
    assert NewItems(hash, first, [b, a]) == [b];
    var second := RebuiltHistory(hash, first, [b, a]);
    assert second[..1] == ItemHashes(hash, [b]) == [GenItemHash(hash, b)];
    assert second[1..] == first[..3];
    assert second == second[..1] + second[1..];
    assert second == [GenItemHash(hash, b), GenItemHash(hash, u), GenItemHash(hash, v), GenItemHash(hash, w)];
  }

  /**
   The history as it was evidently meant: the identities of ALL fetched
   items, then the old history up to the cap of twice the fetch.
   */
  function IntendedHistory(hash: Hasher, history: seq<U64>, items: seq<Item>): (r: seq<U64>)
    ensures |r| == |items| + if |history| <= |items| then |history| else |items|
    ensures r[..|items|] == ItemHashes(hash, items)
    ensures r[|items|..] == history[..|r| - |items|]
    ensures forall x :: x in items ==> GenItemHash(hash, x) in r
  {
    var r := ItemHashes(hash, items) + Take(history, |items|);
    assert forall x :: x in items ==> GenItemHash(hash, x) in r by {
      forall x | x in items
        ensures GenItemHash(hash, x) in r
      {
        var i :| 0 <= i < |items| && items[i] == x;
        assert r[i] == GenItemHash(hash, x);
      }
    }
    r
  }

  /**
   With the intended history, polling the same items again right after a
   poll reports nothing, whether or not the first poll found new items.
   */
  lemma IntendedRepollReportsNothing(hash: Hasher, history: seq<U64>, items: seq<Item>)
    ensures
      var next := if NewItems(hash, history, items) == [] then history else IntendedHistory(hash, history, items);
      NewItems(hash, next, items) == []
  {
    NoNewItemsIffAllKnown(hash, history, items);
    NoNewItemsIffAllKnown(hash, IntendedHistory(hash, history, items), items);
  }
}
