/** The search service's local parts: the check of search parameters, the search history kept
    in local storage (most recent first, one entry per keyword and type, at most fifty), its
    paging, and the service's result cache. The clock is a parameter. */
module SearchHistory {
  import opened Common
  import Cache

  const MaxHistory := 50
  const MaxKeywordLength := 200
  const CacheNamespace := "search_"
  const CacheExpiry := 10 * 60 * 1000
  const ValidTypes: seq<string> := ["all", "documents", "vocabulary", "tags", "users"]
  const ValidSortOrders: seq<string> := ["asc", "desc"]

  // ---------------------------------------------------------------------------
  // Parameter checks
  // ---------------------------------------------------------------------------

  /** The search options; an absent option is None. */
  datatype SearchOptions = SearchOptions(searchType: Option<string>, page: Option<int>,
                                         pageSize: Option<int>, sortOrder: Option<string>)

  const BlankKeyword := "搜索关键词不能为空"
  const KeywordTooLong := "搜索关键词不能超过200个字符"
  const BadType := "无效的搜索类型，必须是: all, documents, vocabulary, tags, users"
  const BadPage := "页码必须是大于0的整数"
  const BadPageSize := "每页数量必须在1-100之间"
  const BadSortOrder := "无效的排序顺序，必须是: asc, desc"

  /** JavaScript truthiness of an optional string and an optional number. */
  predicate GivenText(o: Option<string>) { o.Some? && o.value != "" }
  predicate GivenNumber(o: Option<int>) { o.Some? && o.value != 0 }

  /** The checks in the order the service makes them; None when all pass, otherwise the first
      failure. An empty type or sort order and a zero page or page size count as absent. */
  function ValidateSearchParams(keyword: Option<string>, options: SearchOptions)
    : (err: Option<string>)
    ensures err.None? <==>
      keyword.Some? && !JsBlank(keyword.value) && |keyword.value| <= MaxKeywordLength
      && (!GivenText(options.searchType) || options.searchType.value in ValidTypes)
      && (!GivenNumber(options.page) || options.page.value >= 1)
      && (!GivenNumber(options.pageSize) || 1 <= options.pageSize.value <= 100)
      && (!GivenText(options.sortOrder) || options.sortOrder.value in ValidSortOrders)
    ensures keyword.None? || JsBlank(keyword.value) ==> err == Some(BlankKeyword)
    ensures err == Some(KeywordTooLong) ==> |keyword.value| > MaxKeywordLength
    ensures err == Some(BadPageSize) ==>
      options.pageSize.Some? && !(1 <= options.pageSize.value <= 100)
  {
    if keyword.None? || keyword.value == "" || JsBlank(keyword.value) then Some(BlankKeyword)
    else if |keyword.value| > MaxKeywordLength then Some(KeywordTooLong)
    else if GivenText(options.searchType) && options.searchType.value !in ValidTypes then Some(BadType)
    else if GivenNumber(options.page) && options.page.value < 1 then Some(BadPage)
    else if GivenNumber(options.pageSize) && (options.pageSize.value < 1 || options.pageSize.value > 100)
    then Some(BadPageSize)
    else if GivenText(options.sortOrder) && options.sortOrder.value !in ValidSortOrders
    then Some(BadSortOrder)
    else None
  }

  // ---------------------------------------------------------------------------
  // The local history
  // ---------------------------------------------------------------------------

  /** One remembered search; the timestamp is the text the clock gave. */
  datatype HistoryEntry = HistoryEntry(keyword: string, searchType: string, timestamp: string)

  predicate SameSearch(e: HistoryEntry, keyword: string, searchType: string)
  {
    e.keyword == keyword && e.searchType == searchType
  }

  /** No two entries are for the same keyword and type. */
  predicate DistinctSearches(h: seq<HistoryEntry>)
  {
    forall i, j :: 0 <= i < j < |h| ==> !SameSearch(h[j], h[i].keyword, h[i].searchType)
  }

  /** The entries for other searches, in their order. */
  function WithoutSearch(h: seq<HistoryEntry>, keyword: string, searchType: string)
    : (r: seq<HistoryEntry>)
    ensures |r| <= |h|
    ensures forall e :: e in r <==> e in h && !SameSearch(e, keyword, searchType)
    ensures (forall k :: 0 <= k < |h| ==> !SameSearch(h[k], keyword, searchType)) ==> r == h
  {
    if h == [] then []
    else
      var init := WithoutSearch(h[..|h| - 1], keyword, searchType);
      var x := h[|h| - 1];
      assert forall y :: y in h ==> y in h[..|h| - 1] || y == x;
      assert x in h;
      if SameSearch(x, keyword, searchType) then init else init + [x]
  }

  /** Filtering a concatenation filters each part. */
  lemma {:induction false} WithoutSearchAppend(a: seq<HistoryEntry>, b: seq<HistoryEntry>,
                                               keyword: string, searchType: string)
    ensures WithoutSearch(a + b, keyword, searchType)
         == WithoutSearch(a, keyword, searchType) + WithoutSearch(b, keyword, searchType)
  {
    if b != [] {
      WithoutSearchAppend(a, b[..|b| - 1], keyword, searchType);
      assert (a + b)[..|a + b| - 1] == a + b[..|b| - 1];
    } else {
      assert a + b == a;
    }
  }

  /** Filtering keeps the entries distinct. */
  lemma {:induction false} WithoutSearchDistinct(h: seq<HistoryEntry>, keyword: string,
                                                 searchType: string)
    requires DistinctSearches(h)
    ensures DistinctSearches(WithoutSearch(h, keyword, searchType))
  {
    if h != [] {
      var init := h[..|h| - 1];
      var x := h[|h| - 1];
      WithoutSearchDistinct(init, keyword, searchType);
      var r := WithoutSearch(init, keyword, searchType);
      forall e | e in r
        ensures !SameSearch(x, e.keyword, e.searchType)
      {
        var j :| 0 <= j < |init| && init[j] == e;
        assert h[j] == e;
      }
    }
  }

  /** The history after a search is saved: earlier entries for the same keyword and type are
      dropped, the new entry goes first, and the list is cut to fifty. */
  function SaveEntry(h: seq<HistoryEntry>, keyword: string, searchType: string, now: string)
    : (r: seq<HistoryEntry>)
    ensures 1 <= |r| <= MaxHistory
    ensures r[0] == HistoryEntry(keyword, searchType, now)
    ensures |r| == Min(MaxHistory, 1 + |WithoutSearch(h, keyword, searchType)|)
    ensures forall k :: 1 <= k < |r| ==> r[k] in h && !SameSearch(r[k], keyword, searchType)
  {
    var n := [HistoryEntry(keyword, searchType, now)] + WithoutSearch(h, keyword, searchType);
    assert forall k :: 1 <= k < |n| ==> n[k] in WithoutSearch(h, keyword, searchType);
    if |n| > MaxHistory then n[..MaxHistory] else n
  }

  /** Saving keeps one entry per keyword and type. */
  lemma SaveKeepsSearchesDistinct(h: seq<HistoryEntry>, keyword: string, searchType: string,
                                  now: string)
    requires DistinctSearches(h)
    ensures DistinctSearches(SaveEntry(h, keyword, searchType, now))
  {
    WithoutSearchDistinct(h, keyword, searchType);
  }

  /** Saving the same search again leaves the history as if it had been saved only the second
      time: one entry for it, first, with the later timestamp. */
  lemma SaveAgainReplaces(h: seq<HistoryEntry>, keyword: string, searchType: string,
                          first: string, second: string)
    ensures SaveEntry(SaveEntry(h, keyword, searchType, first), keyword, searchType, second)
         == SaveEntry(h, keyword, searchType, second)
  {
    var w := WithoutSearch(h, keyword, searchType);
    var s1 := SaveEntry(h, keyword, searchType, first);
    var w1 := w[..|s1| - 1];
    SavedRest(h, keyword, searchType, first);
    var e2 := HistoryEntry(keyword, searchType, second);
    assert SaveEntry(s1, keyword, searchType, second) == [e2] + w1;
    assert SaveEntry(h, keyword, searchType, second) == [e2] + w1 by {
      if 1 + |w| > MaxHistory {
        assert ([e2] + w)[..MaxHistory] == [e2] + w1;
      }
    }
  }

  /** After saving, the entries for other searches are the kept prefix of the old ones. */
  lemma SavedRest(h: seq<HistoryEntry>, keyword: string, searchType: string, now: string)
    ensures var s1 := SaveEntry(h, keyword, searchType, now);
      WithoutSearch(s1, keyword, searchType) == WithoutSearch(h, keyword, searchType)[..|s1| - 1]
  {
    var w := WithoutSearch(h, keyword, searchType);
    var s1 := SaveEntry(h, keyword, searchType, now);
    var w1 := w[..|s1| - 1];
    assert s1 == [s1[0]] + w1;
    WithoutSearchAppend([s1[0]], w1, keyword, searchType);
    assert WithoutSearch([s1[0]], keyword, searchType) == [];
    forall k | 0 <= k < |w1|
      ensures !SameSearch(w1[k], keyword, searchType)
    {
      assert w1[k] == w[k];
      assert w[k] in w;
    }
  }

  /** One page of the local history, with the total; the page defaults to 1 and the size to
      20 only when they are absent. */
  datatype HistoryPage = HistoryPage(total: int, page: int, pageSize: int,
                                     items: seq<HistoryEntry>)

  function LocalHistoryPage(h: seq<HistoryEntry>, page: Option<int>, pageSize: Option<int>)
    : (p: HistoryPage)
    ensures p.total == |h|
    ensures p.page == (if page.Some? then page.value else 1)
    ensures p.pageSize == (if pageSize.Some? then pageSize.value else 20)
    ensures p.items == Page(h, p.page, p.pageSize)
  {
    var pg := if page.Some? then page.value else 1;
    var size := if pageSize.Some? then pageSize.value else 20;
    HistoryPage(|h|, pg, size, Page(h, pg, size))
  }

  /** With a positive page size every entry is on exactly the page its position gives, at the
      position within the page its remainder gives. */
  lemma EveryEntryOnItsPage(h: seq<HistoryEntry>, pageSize: int, k: int)
    requires pageSize >= 1 && 0 <= k < |h|
    ensures var p := LocalHistoryPage(h, Some(k / pageSize + 1), Some(pageSize));
      k % pageSize < |p.items| && p.items[k % pageSize] == h[k]
  {
    var q := k / pageSize;
    PageStart(k, pageSize);
    SliceAt(h, q * pageSize, pageSize, k % pageSize);
    assert (q + 1 - 1) * pageSize == q * pageSize;
  }

  /** A position lies in the page its quotient gives, at its remainder. */
  lemma PageStart(k: int, pageSize: int)
    requires pageSize >= 1 && 0 <= k
    ensures 0 <= (k / pageSize) * pageSize
    ensures (k / pageSize) * pageSize + k % pageSize == k
  {
  }

  /** Inside the sequence, a slice from `start` holds at `j` the element at `start + j`. */
  lemma SliceAt<T>(s: seq<T>, start: int, size: int, j: int)
    requires 0 <= start && 0 <= j < size && start + j < |s|
    ensures j < |JsSlice(s, start, start + size)| && JsSlice(s, start, start + size)[j] == s[start + j]
  {
  }

  // ---------------------------------------------------------------------------
  // The service's state
  // ---------------------------------------------------------------------------

  /** A cached result with the time it was stored and the lifetime it was stored with. */
  datatype CacheEntry<D> = CacheEntry(data: D, timestamp: int, expiry: int)

  /** A cache read: a missing entry gives nothing; an entry older than the lifetime asked for
      (ten minutes when none is) is deleted and gives nothing; otherwise its data. The
      lifetime stored with the entry plays no part. */
  function CacheLookup<D>(cache: map<string, CacheEntry<D>>, key: string, expiry: Option<int>,
                          now: int)
    : (r: (Option<D>, map<string, CacheEntry<D>>))
    ensures r.0.Some? <==>
      key in cache && now - cache[key].timestamp <= Cache.ExpiryOr(expiry, CacheExpiry)
    ensures r.0.Some? ==> r.0.value == cache[key].data && r.1 == cache
    ensures r.0.None? ==> r.1 == cache - {key}
  {
    if key !in cache then (None, cache)
    else if now - cache[key].timestamp > Cache.ExpiryOr(expiry, CacheExpiry) then
      (None, cache - {key})
    else (Some(cache[key].data), cache)
  }

  /** The entries left after clearing the namespace: those whose key lies outside it. */
  function OutsideNamespace<D>(cache: map<string, CacheEntry<D>>): (rest: map<string, CacheEntry<D>>)
    ensures forall k :: k in rest <==> k in cache && !StartsWith(k, CacheNamespace)
    ensures forall k :: k in rest ==> rest[k] == cache[k]
  {
    map k | k in cache && !StartsWith(k, CacheNamespace) :: cache[k]
  }

  class SearchService<D> {
    var history: seq<HistoryEntry>
    var cache: map<string, CacheEntry<D>>

    constructor ()
      ensures history == [] && cache == map[]
    {
      history := [];
      cache := map[];
    }

    /** Saves a search to the local history. */
    method SaveToLocalStorage(keyword: string, searchType: string, now: string)
      modifies this`history
      ensures history == SaveEntry(old(history), keyword, searchType, now)
    {
      var newHistory := WithoutSearch(history, keyword, searchType);
      newHistory := [HistoryEntry(keyword, searchType, now)] + newHistory;
      if |newHistory| > MaxHistory {
        newHistory := newHistory[..MaxHistory];
      }
      history := newHistory;
    }

    method GetFromCache(key: string, expiry: Option<int>, now: int) returns (r: Option<D>)
      modifies this`cache
      ensures (r, cache) == CacheLookup(old(cache), key, expiry, now)
    {
      if key !in cache {
        return None;
      }
      var entry := cache[key];
      if now - entry.timestamp > Cache.ExpiryOr(expiry, CacheExpiry) {
        cache := cache - {key};
        return None;
      }
      r := Some(entry.data);
    }

    method SetToCache(key: string, data: D, expiry: Option<int>, now: int)
      modifies this`cache
      ensures cache == old(cache)[key := CacheEntry(data, now, Cache.ExpiryOr(expiry, CacheExpiry))]
    {
      cache := cache[key := CacheEntry(data, now, Cache.ExpiryOr(expiry, CacheExpiry))];
    }

    /** Deletes every cached entry whose key starts with the service's namespace, walking the
        keys in the map's own order. */
    method ClearSearchHistoryCache()
      modifies this`cache
      ensures cache == OutsideNamespace(old(cache))
    {
      var keys := cache.Keys;
      while keys != {}
        invariant keys <= old(cache).Keys
        invariant forall k :: k in cache <==>
          k in old(cache) && (k in keys || !StartsWith(k, CacheNamespace))
        invariant forall k :: k in cache ==> cache[k] == old(cache)[k]
        decreases |keys|
      {
        var k :| k in keys;
        if StartsWith(k, CacheNamespace) {
          cache := cache - {k};
        }
        keys := keys - {k};
      }
    }
  }
}
