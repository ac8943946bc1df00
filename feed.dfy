/**
  The feed client (src/services/substackFeed.js): one network fetch of the
  feed, normalisation of its items into posts, and a single time-boxed cache
  slot with stale fallback.

  What the browser supplies is passed in: the clock (`now` for the freshness
  test, `savedAt` for the timestamp written after the download), the outcome
  of the network request and of parsing its body, and the locale-dependent
  date formatter `localeDate`.
*/
module SubstackFeed {
  import opened Wrappers
  import opened Excerpts

  /** How long a cache entry counts as fresh, in milliseconds: 30 minutes. */
  const CacheDuration := 30 * 60 * 1000

  /** The limit used when the caller gives none. */
  const DefaultLimit := 3

  /** The message of a hard failure. */
  const LoadError := "Não foi possível carregar os artigos"

  /** A normalised feed entry. `thumbnail` is `None` for JavaScript's `null`. */
  datatype Post = Post(
    id: string,
    title: string,
    excerpt: string,
    link: string,
    date: string,
    author: string,
    thumbnail: Option<string>)

  /**
    An item of the feed as delivered. `description` is `None` when it is not a
    string (absent or of another type), so that calling `.replace` on it throws;
    `thumbnail` is `None` when absent.
  */
  datatype RawItem = RawItem(
    guid: string,
    title: string,
    description: Option<string>,
    link: string,
    pubDate: string,
    author: string,
    thumbnail: Option<string>)

  /**
    What the network request and the body parse produced. `items` is `None`
    when the body has no array under `items`, so that `.map` throws.
  */
  datatype NetOutcome =
    | TransportError
    | UnreadableBody
    | Body(status: string, items: Option<seq<RawItem>>)

  /** The value `fetchSubstackPosts` resolves to. */
  datatype FetchResult =
    | Success(posts: seq<Post>, total: int)
    | Failure(posts: seq<Post>, error: string)

  /** The stored `{data: {success: true, posts, total}, timestamp}`. */
  datatype CacheEntry = CacheEntry(posts: seq<Post>, total: int, timestamp: int)

  /** The result of one call together with the cache slot it leaves behind. */
  datatype Fetched = Fetched(result: FetchResult, cache: Option<CacheEntry>)

  function Min(a: int, b: int): int {
    if a < b then a else b
  }

  /** JavaScript's `s.slice(0, limit)`: a negative limit counts back from the end. */
  function SliceTo<T>(s: seq<T>, limit: int): (r: seq<T>)
    ensures |r| <= |s| && r == s[..|r|]
    ensures limit >= 0 ==> |r| == Min(limit, |s|)
    ensures limit < 0 ==> |r| + Min(-limit, |s|) == |s|
  {
    if limit >= 0 then s[..Min(limit, |s|)]
    else if |s| + limit < 0 then []
    else s[..|s| + limit]
  }

  /** JavaScript falsiness of an optional string: absent or empty. */
  predicate Falsy(t: Option<string>) {
    t.None? || t.value == ""
  }

  /** `p` is what the mapping at lines 31-39 makes of `item`. */
  ghost predicate NormalisedFrom(p: Post, item: RawItem, localeDate: string -> string) {
    && item.description.Some?
    && p.id == item.guid
    && p.title == item.title
    && p.excerpt == Excerpt(item.description.value)
    && p.link == item.link
    && p.date == localeDate(item.pubDate)
    && p.author == item.author
    && (Falsy(item.thumbnail) ==> p.thumbnail == None)
    && (!Falsy(item.thumbnail) ==> p.thumbnail == item.thumbnail)
  }

  /** The mapping of one item; `None` when it throws. */
  function Normalise(item: RawItem, localeDate: string -> string): (p: Option<Post>)
    ensures p.Some? <==> item.description.Some?
    ensures p.Some? ==> NormalisedFrom(p.value, item, localeDate)
  {
    match item.description
    case None => None
    case Some(description) =>
      Some(Post(
        item.guid,
        item.title,
        Excerpt(description),
        item.link,
        localeDate(item.pubDate),
        item.author,
        if Falsy(item.thumbnail) then None else item.thumbnail))
  }

  /** `items.map(...)`: `None` when mapping any item throws, else one post per item, in order. */
  function NormaliseAll(items: seq<RawItem>, localeDate: string -> string): (r: Option<seq<Post>>)
    ensures r.Some? <==> forall i :: 0 <= i < |items| ==> items[i].description.Some?
    ensures r.Some? ==> |r.value| == |items|
    ensures r.Some? ==> forall i :: 0 <= i < |items| ==> NormalisedFrom(r.value[i], items[i], localeDate)
  {
    if items == [] then Some([])
    else
      match Normalise(items[0], localeDate)
      case None => None
      case Some(p) =>
        match NormaliseAll(items[1..], localeDate)
        case None => None
        case Some(ps) => Some([p] + ps)
  }

  /** The try-block up to the cache write: the full post list, or `None` on any failure. */
  function Download(net: NetOutcome, localeDate: string -> string): (d: Option<seq<Post>>)
    ensures d.Some? ==> net.Body? && net.status == "ok" && net.items.Some?
    ensures net.Body? && net.status == "ok" && net.items.Some? ==> d == NormaliseAll(net.items.value, localeDate)
  {
    match net
    case Body(status, items) =>
      if status == "ok" && items.Some? then NormaliseAll(items.value, localeDate) else None
    case _ => None
  }

  /** The freshness test at line 12 (strictly younger than 30 minutes). */
  predicate IsFresh(entry: CacheEntry, now: int)
    // fresh from the moment of writing up to, but not including, its 30-minute deadline
    ensures entry.timestamp <= now < entry.timestamp + 1_800_000 ==> IsFresh(entry, now)
    ensures now >= entry.timestamp + 1_800_000 ==> !IsFresh(entry, now)
  {
    now - entry.timestamp < CacheDuration
  }

  /** A cached answer: the stored result with its posts cut to `limit`. */
  function FromCache(entry: CacheEntry, limit: int): (r: FetchResult)
    ensures r.Success? && r.total == entry.total
    ensures |r.posts| <= |entry.posts| && r.posts == entry.posts[..|r.posts|]
    ensures limit >= 0 ==> |r.posts| == Min(limit, |entry.posts|)
  {
    Success(SliceTo(entry.posts, limit), entry.total)
  }

  /**
    The whole decision of `fetchSubstackPosts(limit)`, given the slot as it was
    read at the start: the answer and the slot afterwards.
  */
  function Fetch(cached: Option<CacheEntry>, limit: int, now: int, net: NetOutcome,
                 localeDate: string -> string, savedAt: int): (f: Fetched)
    // every successful answer is the limit-prefix of the slot as it now stands
    ensures f.result.Success? ==>
              f.cache.Some? && f.result.posts == SliceTo(f.cache.value.posts, limit) &&
              f.result.total == f.cache.value.total
    // a hard failure happens exactly when there is no cache and the download failed
    ensures f.result.Failure? <==> cached.None? && Download(net, localeDate).None?
    ensures f.result.Failure? ==> f.result.posts == [] && f.result.error == LoadError
    // the slot is either left alone or overwritten with a whole, freshly stamped list
    ensures f.cache == cached ||
            (f.cache.Some? && f.cache.value.timestamp == savedAt &&
             f.cache.value.total == |f.cache.value.posts| &&
             Some(f.cache.value.posts) == Download(net, localeDate))
    ensures Download(net, localeDate).None? ==> f.cache == cached
  {
    if cached.Some? && IsFresh(cached.value, now) then
      Fetched(FromCache(cached.value, limit), cached)
    else
      match Download(net, localeDate)
      case Some(all) =>
        var entry := CacheEntry(all, |all|, savedAt);
        Fetched(FromCache(entry, limit), Some(entry))
      case None =>
        if cached.Some? then Fetched(FromCache(cached.value, limit), cached)
        else Fetched(Failure([], LoadError), cached)
  }

  /** The client's state is the one cache slot (the browser's local storage key). */
  class FeedClient {
    var cache: Option<CacheEntry>

    /** A stored entry's `total` counts its posts, as every write at line 49 makes it. */
    ghost predicate Valid()
      reads this
    {
      cache.Some? ==> cache.value.total == |cache.value.posts|
    }

    /** A client over whatever an earlier page visit left in storage. */
    constructor (stored: Option<CacheEntry>)
      requires stored.Some? ==> stored.value.total == |stored.value.posts|
      ensures Valid() && cache == stored
    {
      cache := stored;
    }

    /** `fetchSubstackPosts(limit)`. */
    method FetchPosts(limit: int, now: int, net: NetOutcome, localeDate: string -> string, savedAt: int)
      returns (r: FetchResult)
      requires Valid()
      modifies this
      ensures Valid()
      ensures Fetched(r, cache) == Fetch(old(cache), limit, now, net, localeDate, savedAt)
      // the `total` of a successful answer counts the posts in the slot, of which it shows a prefix
      ensures r.Success? ==> cache.Some? && r.total == |cache.value.posts|
    {
      var cached := cache;
      if cached.Some? && now - cached.value.timestamp < CacheDuration {
        return Success(SliceTo(cached.value.posts, limit), cached.value.total);
      }
      if net.Body? && net.status == "ok" && net.items.Some? {
        var allPosts := NormaliseAll(net.items.value, localeDate);
        if allPosts.Some? {
          cache := Some(CacheEntry(allPosts.value, |allPosts.value|, savedAt));
          return Success(SliceTo(allPosts.value, limit), |allPosts.value|);
        }
      }
      if cached.Some? {
        return Success(SliceTo(cached.value.posts, limit), cached.value.total);
      }
      return Failure([], LoadError);
    }
  }

  /** A fresh entry is answered from the cache whatever the network would have done, and the slot is kept. */
  lemma FreshEntryNeedsNoNetwork(entry: CacheEntry, limit: int, now: int, net1: NetOutcome, net2: NetOutcome,
                                 localeDate: string -> string, savedAt1: int, savedAt2: int)
    requires now - entry.timestamp < CacheDuration
    ensures Fetch(Some(entry), limit, now, net1, localeDate, savedAt1) ==
            Fetch(Some(entry), limit, now, net2, localeDate, savedAt2)
    ensures Fetch(Some(entry), limit, now, net1, localeDate, savedAt1) ==
            Fetched(Success(SliceTo(entry.posts, limit), entry.total), Some(entry))
  {
  }

  /** An entry exactly 30 minutes old, or older, is expired: a working network replaces it. */
  lemma ExpiredEntryIsRefetched(entry: CacheEntry, limit: int, now: int, net: NetOutcome,
                                localeDate: string -> string, savedAt: int)
    requires now - entry.timestamp >= CacheDuration
    requires Download(net, localeDate).Some?
    ensures var all := Download(net, localeDate).value;
            Fetch(Some(entry), limit, now, net, localeDate, savedAt) ==
            Fetched(Success(SliceTo(all, limit), |all|), Some(CacheEntry(all, |all|, savedAt)))
  {
  }

  /**
    A successful download is cached whole, never cut by `limit`; the answer is
    its first `min(limit, n)` posts in feed order, with `total` = n, and post i
    is item i normalised.
  */
  lemma SuccessCachesWholeList(cached: Option<CacheEntry>, limit: nat, now: int, status: string,
                               items: seq<RawItem>, localeDate: string -> string, savedAt: int)
    requires cached.None? || !IsFresh(cached.value, now)
    requires status == "ok"
    requires forall i :: 0 <= i < |items| ==> items[i].description.Some?
    ensures var f := Fetch(cached, limit, now, Body(status, Some(items)), localeDate, savedAt);
            && f.cache.Some? && |f.cache.value.posts| == |items| == f.cache.value.total
            && f.cache.value.timestamp == savedAt
            && (forall i :: 0 <= i < |items| ==> NormalisedFrom(f.cache.value.posts[i], items[i], localeDate))
            && f.result == Success(f.cache.value.posts[..Min(limit, |items|)], |items|)
  {
  }

  /** A status other than "ok", a failed request or an unreadable body all take the failure path. */
  lemma BadResponseFails(net: NetOutcome, localeDate: string -> string)
    requires net.TransportError? || net.UnreadableBody? || (net.Body? && net.status != "ok")
    ensures Download(net, localeDate).None?
  {
  }

  /** One item whose description cannot be stripped makes the whole download fail. */
  lemma BadItemFails(items: seq<RawItem>, k: nat, localeDate: string -> string)
    requires k < |items| && items[k].description.None?
    ensures Download(Body("ok", Some(items)), localeDate).None?
  {
  }

  /**
    On the failure path the slot is never written; any entry, however old,
    answers with its posts cut to `limit`; without one the answer is the fixed
    error with no posts.
  */
  lemma FailureFallsBack(cached: Option<CacheEntry>, limit: int, now: int, net: NetOutcome,
                         localeDate: string -> string, savedAt: int)
    requires Download(net, localeDate).None?
    ensures var f := Fetch(cached, limit, now, net, localeDate, savedAt);
            && f.cache == cached
            && (cached.Some? ==> f.result == Success(SliceTo(cached.value.posts, limit), cached.value.total))
            && (cached.None? ==> f.result == Failure([], LoadError))
  {
  }

  /** Every answer holds at most `limit` posts. */
  lemma AnswerWithinLimit(cached: Option<CacheEntry>, limit: nat, now: int, net: NetOutcome,
                          localeDate: string -> string, savedAt: int)
    ensures |Fetch(cached, limit, now, net, localeDate, savedAt).result.posts| <= limit
  {
  }

  /** A fresh entry of ten posts asked with the default limit gives the first three and total ten. */
  lemma CacheHitExample(posts: seq<Post>, now: int, net: NetOutcome, localeDate: string -> string, savedAt: int)
    requires |posts| == 10
    ensures var f := Fetch(Some(CacheEntry(posts, 10, now - 1000)), DefaultLimit, now, net, localeDate, savedAt);
            f.result == Success(posts[..3], 10) && |f.result.posts| == 3
  {
  }
}
