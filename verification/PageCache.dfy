/**
 The page cache of the delta code: a direct-mapped table of sent pages with ages.
 */
module PageCache {
  import opened Basics

  const CACHED_PAGE_LIFETIME := 2

  datatype Item = Empty | Item(page: nat, age: nat, data: Bytes)

  /** Pages other than p keep their entry or lose it. */
  predicate Others(contents: map<nat, Bytes>, contents': map<nat, Bytes>, p: nat)
  {
    forall q :: q in contents' && q != p ==> q in contents && contents'[q] == contents[q]
  }

  /** An entry gives way to its own page, or to any page once it is old. */
  predicate Yields(it: Item, page: nat, now: nat)
  {
    it.Item? && (it.page == page || it.age + CACHED_PAGE_LIFETIME <= now)
  }

  /** Nothing but the slot of the page has changed, and that not in its age. */
  predicate OneSlot(items: seq<Item>, items': seq<Item>, page: nat)
  {
    && |items'| == |items| > 0 && (forall i :: 0 <= i < |items| && i != page % |items| ==> items'[i] == items[i])
    && var it, it' := items[page % |items|], items'[page % |items|];
       it' == it || (it.Item? && it.page == page && it'.Item? && it'.page == page && it'.age == it.age)
  }

  lemma AgedThen(a: seq<Item>, b: seq<Item>, c: seq<Item>, page: nat, now: nat)
    requires Aged(a, b, page, now) && OneSlot(b, c, page)
    ensures Aged(a, c, page, now)
  {
  }

  lemma OneSlotNone(items: seq<Item>, page: nat)
    requires items != []
    ensures OneSlot(items, items, page)
  {
  }

  /** Nothing but the slot of the page has changed; it holds the page, used just now, or what it
      held before; and what had to give way was old. */
  predicate Aged(items: seq<Item>, items': seq<Item>, page: nat, now: nat)
  {
    && |items'| == |items| > 0 && (forall i :: 0 <= i < |items| && i != page % |items| ==> items'[i] == items[i])
    && var it, it' := items[page % |items|], items'[page % |items|];
       && (it'.Item? && it'.page == page ==> it'.age == now)
       && (it' == it || (it'.Item? && it'.page == page && (it.Empty? || Yields(it, page, now))))
  }

  /** Addresses are page numbers here; a cache is created with a power of two of slots. */
  class Cache {
    var items: seq<Item>
    /** What is cached for which page. */
    ghost var contents: map<nat, Bytes>

    ghost predicate Valid()
      reads this
    {
      && |items| > 0
      && (forall i :: 0 <= i < |items| && items[i].Item? ==>
            items[i].page % |items| == i && items[i].page in contents && contents[items[i].page] == items[i].data)
      && (forall page :: page in contents ==> items[page % |items|].Item? && items[page % |items|].page == page)
    }

    constructor (slots: nat)
      requires slots > 0
      ensures Valid() && contents == map[] && items == seq(slots, _ => Empty)
    {
      items := seq(slots, _ => Empty);
      contents := map[];
    }

    /** get_cached_data, for a page known to be cached. */
    function Get(page: nat): (data: Bytes)
      requires Valid() && page in contents
      reads this
      ensures data == contents[page]
    {
      items[page % |items|].data
    }

    lemma SomeSlots()
      requires Valid()
      ensures items != []
    {
    }

    lemma NotCached(page: nat, now: nat)
      requires Valid() && page !in contents
      ensures Aged(items, items, page, now)
    {
    }

    /** cache_is_cached: a hit makes the entry young again. */
    method IsCached(page: nat, now: nat) returns (hit: bool)
      requires Valid()
      modifies this
      ensures Valid() && contents == old(contents)
      ensures hit == (page in contents)
      ensures |items| == old(|items|)
      ensures hit ==> items == old(items)[page % |items| := old(items[page % |items|]).(age := now)]
      ensures !hit ==> items == old(items)
      ensures Aged(old(items), items, page, now)
    {
      var pos := page % |items|;
      hit := items[pos].Item? && items[pos].page == page;
      if hit {
        items := items[pos := items[pos].(age := now)];
      }
    }

    /** cache_insert: refused if the slot holds another page that is still young, or if no
        memory is left for an empty slot.  Either way no older data stays cached for the page,
        and a page already cached is never refused. */
    method Insert(page: nat, data: Bytes, now: nat, memory: bool) returns (ok: bool)
      requires Valid()
      modifies this
      ensures Valid()
      ensures ok <==> (memory && old(items[page % |items|]).Empty?) || Yields(old(items[page % |items|]), page, now)
      ensures |items| == old(|items|)
      ensures Aged(old(items), items, page, now)
      ensures !ok ==> items == old(items) && contents == old(contents) && page !in contents
      ensures ok ==> items == old(items)[page % |items| := Item(page, now, data)]
      ensures ok ==> page in contents && contents[page] == data && Others(old(contents), contents, page)
    {
      var pos := page % |items|;
      var it := items[pos];
      if it.Item? && it.page != page && it.age + CACHED_PAGE_LIFETIME > now { return false; }
      if it.Empty? && !memory { return false; }
      ghost var gone := if it.Item? && it.page != page then {it.page} else {};
      items := items[pos := Item(page, now, data)];
      contents := (contents - gone)[page := data];
      ok := true;
    }

    /** Writes through the pointer that get_cached_data returned. */
    method Overwrite(page: nat, data: Bytes)
      requires Valid() && page in contents
      modifies this
      ensures Valid() && contents == old(contents)[page := data] && |items| == old(|items|)
      ensures OneSlot(old(items), items, page)
      ensures items == old(items)[page % |items| := old(items[page % |items|]).(data := data)]
    {
      var pos := page % |items|;
      items := items[pos := items[pos].(data := data)];
      contents := contents[page := data];
    }
  }

  /** A page that was inserted at time t keeps its slot against every other page for two cycles,
      and for no longer. */
  method Lifetime(cache: Cache, p: nat, q: nat, data: Bytes, other: Bytes, t: nat, t': nat, memory: bool, memory': bool)
    returns (ok: bool, taken: bool)
    requires cache.Valid() && p != q && p % |cache.items| == q % |cache.items|
    modifies cache
    ensures cache.Valid()
    ensures ok ==> (taken <==> t + 2 <= t')
    ensures ok ==> (p in cache.contents <==> !taken) && (q in cache.contents <==> taken)
  {
    ok := cache.Insert(p, data, t, memory);
    taken := cache.Insert(q, other, t', memory');
  }

  /** A hit makes its page young: from then on it keeps its slot for two cycles again. */
  method Refreshed(cache: Cache, p: nat, q: nat, other: Bytes, t: nat, t': nat, memory: bool)
    returns (hit: bool, taken: bool)
    requires cache.Valid() && p != q && p % |cache.items| == q % |cache.items|
    modifies cache
    ensures cache.Valid() && hit == (p in old(cache.contents))
    ensures hit ==> (taken <==> t + 2 <= t') && (p in cache.contents <==> !taken)
  {
    hit := cache.IsCached(p, t);
    taken := cache.Insert(q, other, t', memory);
  }
}
