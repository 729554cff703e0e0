/** The crawl frontier. */
module Frontier {
  import opened Wrappers
  import opened Sorting

  datatype Item = Item(url: string, sourceUrl: Option<string>, depth: int, readyAt: real, priority: real)

  /** Earlier first; at the same time, higher priority first. */
  function ItemKey(x: Item): Key {
    (x.readyAt, -x.priority)
  }

  /** Item `i` is due no later than any other, first in priority of those due at its time, and first pushed of those. */
  ghost predicate IsNext(xs: seq<Item>, i: nat) {
    && i < |xs|
    && forall j :: 0 <= j < |xs| && j != i ==>
      || xs[i].readyAt < xs[j].readyAt
      || (xs[i].readyAt == xs[j].readyAt
          && (xs[i].priority > xs[j].priority || (xs[i].priority == xs[j].priority && i < j)))
  }

  lemma LeastIsNext(xs: seq<Item>, i: nat)
    ensures IsEarliestLeast(xs, i, ItemKey) <==> IsNext(xs, i)
  {
  }

  function Urls(xs: seq<Item>): set<string> {
    set x | x in xs :: x.url
  }

  ghost predicate DistinctUrls(xs: seq<Item>) {
    forall i, j :: 0 <= i < j < |xs| ==> xs[i].url != xs[j].url
  }

  class FrontierQueue {
    var items: seq<Item>
    var enqueuedUrls: set<string>

    /** What the queue holds, in the order in which it was pushed. */
    ghost var queued: seq<Item>

    /** The items are the stable sort of what is queued, and the URL set is theirs. */
    ghost predicate Valid()
      reads this
    {
      && items == Sort(queued, ItemKey)
      && DistinctUrls(queued)
      && enqueuedUrls == Urls(queued)
      && "" !in enqueuedUrls
    }

    constructor ()
      ensures Valid() && queued == []
    {
      items, enqueuedUrls, queued := [], {}, [];
    }

    function Size(): nat
      reads this
    {
      |items|
    }

    predicate Has(url: string)
      reads this
    {
      url in enqueuedUrls
    }

    method Clear()
      modifies this
      ensures Valid() && queued == []
    {
      items, enqueuedUrls, queued := [], {}, [];
    }

    /** Refuses an item without a URL or whose URL is queued already. */
    method Push(item: Item) returns (pushed: bool)
      requires Valid()
      modifies this
      ensures Valid()
      ensures pushed <==> item.url != "" && !old(Has(item.url))
      ensures queued == if pushed then old(queued) + [item] else old(queued)
      ensures Size() == old(Size()) + if pushed then 1 else 0
    {
      if item.url == "" || Has(item.url) {
        return false;
      }
      SortSorted(queued, ItemKey);
      SortAppended(items, item, ItemKey);
      items := Sort(items + [item], ItemKey);
      enqueuedUrls := enqueuedUrls + {item.url};
      AddUrl(queued, item);
      queued := queued + [item];
      pushed := true;
    }

    /**
     * Take out the next item, which is ready if any is; none exactly when nothing is ready.
     */
    method PopReady(now: real) returns (popped: Option<Item>)
      requires Valid()
      modifies this
      ensures Valid()
      ensures popped.None? <==> forall x :: x in old(queued) ==> x.readyAt > now
      ensures popped.None? ==> queued == old(queued)
      ensures popped.Some? ==> exists i: nat ::
        && IsNext(old(queued), i)
        && popped.value == old(queued)[i] && popped.value.readyAt <= now
        && queued == old(queued)[..i] + old(queued)[i + 1..]
      ensures popped.Some? ==> !Has(popped.value.url) && Size() == old(Size()) - 1
    {
      SortedMembers(queued);
      FirstIsReadiest(queued);
      for i := 0 to |items|
        invariant forall j :: 0 <= j < i ==> items[j].readyAt > now
      {
        if items[i].readyAt <= now {
          assert i == 0;
          ghost var k := TakeHead(queued);
          LeastIsNext(queued, k);
          var item := items[i];
          assert items[..i] + items[i + 1..] == items[1..];
          items := items[..i] + items[i + 1..];
          enqueuedUrls := enqueuedUrls - {item.url};
          queued := queued[..k] + queued[k + 1..];
          return Some(item);
        }
      }
      popped := None;
    }
  }

  lemma AddUrl(xs: seq<Item>, item: Item)
    requires DistinctUrls(xs) && item.url !in Urls(xs)
    ensures DistinctUrls(xs + [item])
    ensures Urls(xs + [item]) == Urls(xs) + {item.url}
    ensures Sort(xs + [item], ItemKey) == Insert(Sort(xs, ItemKey), item, ItemKey)
  {
  }

  lemma SortedMembers(xs: seq<Item>)
    ensures forall x :: x in xs <==> x in Sort(xs, ItemKey)
  {
    SortMultiset(xs, ItemKey);
    assert forall x :: x in xs <==> x in multiset(xs);
    assert forall x :: x in Sort(xs, ItemKey) <==> x in multiset(Sort(xs, ItemKey));
  }

  lemma FirstIsReadiest(xs: seq<Item>)
    ensures forall i :: 0 <= i < |xs| ==> Sort(xs, ItemKey)[0].readyAt <= Sort(xs, ItemKey)[i].readyAt
  {
    SortSorted(xs, ItemKey);
    var sorted := Sort(xs, ItemKey);
    forall i | 0 <= i < |xs| ensures sorted[0].readyAt <= sorted[i].readyAt {
      assert i > 0 ==> !KeyLess(ItemKey(sorted[i]), ItemKey(sorted[0]));
    }
  }

  /** What is left when the first of the sorted items is taken out. */
  lemma TakeHead(xs: seq<Item>) returns (k: nat)
    requires xs != [] && DistinctUrls(xs)
    ensures IsEarliestLeast(xs, k, ItemKey) && Sort(xs, ItemKey)[0] == xs[k]
    ensures var rest := xs[..k] + xs[k + 1..];
      && Sort(rest, ItemKey) == Sort(xs, ItemKey)[1..]
      && DistinctUrls(rest) && Urls(rest) == Urls(xs) - {xs[k].url}
  {
    k := SortHead(xs, ItemKey);
    RemoveUrl(xs, k);
  }

  lemma RemoveUrl(xs: seq<Item>, k: nat)
    requires k < |xs| && DistinctUrls(xs)
    ensures DistinctUrls(xs[..k] + xs[k + 1..])
    ensures Urls(xs[..k] + xs[k + 1..]) == Urls(xs) - {xs[k].url}
  {
  }
}
