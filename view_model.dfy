/**
  The pagination view-model (src/composables/useSubstackFeed.js): the posts
  fetched once with a generous limit, and a window over them that grows by
  one page per "load more".

  `ViewState` is the value of the five state cells and carries the derived
  values and the transitions as pure functions; `FeedViewModel` holds the
  cells as fields and its methods update them in place.
*/
module SubstackViewModel {
  import opened Wrappers
  import opened SubstackFeed

  /** Posts shown at first, and the growth of each "load more". */
  const PageSize := 3

  /** The limit `loadPosts` asks the feed client for. */
  const FetchLimit := 50

  datatype ViewState = ViewState(
    posts: seq<Post>,
    loading: bool,
    error: Option<string>,
    displayedCount: int,
    allPostsLoaded: bool)
  {
    /**
      The count is a positive multiple of the page size, and the "all loaded"
      flag is only ever raised once the window covers every post.
    */
    predicate Valid() {
      && displayedCount >= PageSize
      && displayedCount % PageSize == 0
      && (allPostsLoaded ==> displayedCount >= |posts|)
    }

    /** `displayedPosts`: `posts.slice(0, displayedCount)`. */
    function DisplayedPosts(): (d: seq<Post>)
      ensures |d| <= |posts| && d == posts[..|d|]
      ensures Valid() ==> |d| == Min(displayedCount, |posts|)
    {
      SliceTo(posts, displayedCount)
    }

    /** `canLoadMore`: more can be loaded only while some post is hidden. */
    predicate CanLoadMore()
      ensures displayedCount >= 0 && CanLoadMore() ==> |DisplayedPosts()| < |posts|
      ensures displayedCount >= 0 && !allPostsLoaded ==> (CanLoadMore() <==> |DisplayedPosts()| < |posts|)
    {
      !allPostsLoaded && displayedCount < |posts|
    }

    /** `loadMore()`: a no-op unless more can be loaded, else one more page. */
    function LoadMore(): (t: ViewState)
      ensures !CanLoadMore() ==> t == this
      ensures CanLoadMore() ==>
                && t.displayedCount == displayedCount + PageSize
                && t.allPostsLoaded == (t.displayedCount >= |posts|)
                && t.posts == posts && t.loading == loading && t.error == error
      ensures Valid() ==> t.Valid()
    {
      if CanLoadMore() then
        var count := displayedCount + PageSize;
        this.(displayedCount := count, allPostsLoaded := if count >= |posts| then true else allPostsLoaded)
      else
        this
    }

    /** The start of `loadPosts()`, before the fetch: loading, with the error cleared. */
    function StartLoad(): (t: ViewState)
      ensures t.loading && t.error == None
      ensures t.posts == posts && t.displayedCount == displayedCount && t.allPostsLoaded == allPostsLoaded
    {
      this.(loading := true, error := None)
    }

    /** The rest of `loadPosts()`, once the fetch has resolved to `result`. */
    function FinishLoad(result: FetchResult): (t: ViewState)
      ensures !t.loading && t.displayedCount == displayedCount
      ensures result.Success? ==>
                t.posts == result.posts && t.error == error &&
                (t.allPostsLoaded <==> |result.posts| <= displayedCount)
      ensures result.Failure? ==>
                t.posts == posts && t.error == Some(result.error) && t.allPostsLoaded == allPostsLoaded
      ensures Valid() ==> t.Valid()
    {
      var t := match result
        case Success(fetched, _) => this.(posts := fetched, allPostsLoaded := |fetched| <= displayedCount)
        case Failure(_, message) => this.(error := Some(message));
      t.(loading := false)
    }
  }

  /** The state of a freshly created view-model. */
  function Initial(): (s: ViewState)
    ensures s.Valid() && !s.CanLoadMore() && s.DisplayedPosts() == []
  {
    ViewState([], false, None, PageSize, false)
  }

  /** The state after `k` calls of `loadMore()`. */
  function LoadMoreTimes(s: ViewState, k: nat): ViewState
    decreases k
  {
    if k == 0 then s else LoadMoreTimes(s.LoadMore(), k - 1)
  }

  /** How many pages are still hidden. */
  function PagesLeft(s: ViewState): nat {
    if s.displayedCount < |s.posts| then (|s.posts| - s.displayedCount + PageSize - 1) / PageSize else 0
  }

  /** In a valid state the flag is redundant: more can be loaded exactly when some post is hidden. */
  lemma CanLoadMoreIffPostsHidden(s: ViewState)
    requires s.Valid()
    ensures s.CanLoadMore() <==> s.displayedCount < |s.posts|
    ensures s.CanLoadMore() <==> |s.DisplayedPosts()| < |s.posts|
  {
  }

  /** Each effective `loadMore()` shows strictly more posts, keeping those already shown in front. */
  lemma LoadMoreGrowsWindow(s: ViewState)
    requires s.Valid() && s.CanLoadMore()
    ensures |s.DisplayedPosts()| < |s.LoadMore().DisplayedPosts()|
    ensures s.DisplayedPosts() == s.LoadMore().DisplayedPosts()[..|s.DisplayedPosts()|]
    ensures PagesLeft(s.LoadMore()) + 1 == PagesLeft(s)
  {
  }

  /**
    Repeated `loadMore()` stays effective for exactly `PagesLeft(s)` calls,
    each adding one page.
  */
  lemma {:induction false} LoadMoreProgress(s: ViewState, k: nat)
    requires s.Valid() && k <= PagesLeft(s)
    ensures LoadMoreTimes(s, k).displayedCount == s.displayedCount + PageSize * k
    ensures LoadMoreTimes(s, k).posts == s.posts
    ensures k < PagesLeft(s) ==> LoadMoreTimes(s, k).CanLoadMore()
    decreases k
  {
    if k > 0 {
      LoadMoreGrowsWindow(s);
      LoadMoreProgress(s.LoadMore(), k - 1);
    }
  }

  /** After `PagesLeft(s)` calls or more, nothing more can be loaded and further calls change nothing. */
  lemma {:induction false} LoadMoreExhausts(s: ViewState, k: nat)
    requires s.Valid() && k >= PagesLeft(s)
    ensures !LoadMoreTimes(s, k).CanLoadMore()
    ensures LoadMoreTimes(s, k).LoadMore() == LoadMoreTimes(s, k)
    ensures LoadMoreTimes(s, k).DisplayedPosts() == s.posts
    decreases k
  {
    if k == 0 {
      assert s.displayedCount >= |s.posts|;
    } else if s.CanLoadMore() {
      LoadMoreGrowsWindow(s);
      LoadMoreExhausts(s.LoadMore(), k - 1);
    } else {
      LoadMoreExhausts(s.LoadMore(), k - 1);
    }
  }

  /** A successful load of the client's answer shows a prefix of what the cache slot now holds, at most 50 posts. */
  lemma LoadedPostsComeFromCache(s: ViewState, cached: Option<CacheEntry>, now: int, net: NetOutcome,
                                 localeDate: string -> string, savedAt: int)
    requires Fetch(cached, FetchLimit, now, net, localeDate, savedAt).result.Success?
    ensures var f := Fetch(cached, FetchLimit, now, net, localeDate, savedAt);
            var t := s.StartLoad().FinishLoad(f.result);
            && f.cache.Some?
            && t.posts == f.cache.value.posts[..|t.posts|]
            && |t.posts| <= FetchLimit
            && t.error == None && !t.loading
  {
  }

  /** Seven posts: 3 shown and more to load, then 6 and more to load, then all 7 and nothing more. */
  lemma SevenPostsScenario(posts: seq<Post>)
    requires |posts| == 7
    ensures var s0 := Initial().StartLoad().FinishLoad(Success(posts, 7));
            var s1 := s0.LoadMore();
            var s2 := s1.LoadMore();
            && |s0.DisplayedPosts()| == 3 && s0.CanLoadMore()
            && |s1.DisplayedPosts()| == 6 && s1.CanLoadMore()
            && |s2.DisplayedPosts()| == 7 && !s2.CanLoadMore()
            && s2.LoadMore() == s2
  {
  }

  /** The five state cells of `useSubstackFeed()`. */
  class FeedViewModel {
    var posts: seq<Post>
    var loading: bool
    var error: Option<string>
    var displayedCount: int
    var allPostsLoaded: bool

    function State(): ViewState
      reads this
    {
      ViewState(posts, loading, error, displayedCount, allPostsLoaded)
    }

    ghost predicate Valid()
      reads this
    {
      State().Valid()
    }

    /** `useSubstackFeed()`: no posts, not loading, no error, one page, not all loaded. */
    constructor ()
      ensures Valid() && State() == Initial()
    {
      posts := [];
      loading := false;
      error := None;
      displayedCount := PageSize;
      allPostsLoaded := false;
    }

    /**
      `loadPosts()`: clear the error and mark loading, fetch up to 50 posts from
      `client`, then take the posts or the error, and stop loading.
    */
    method LoadPosts(client: FeedClient, now: int, net: NetOutcome, localeDate: string -> string, savedAt: int)
      requires Valid() && client.Valid()
      modifies this, client
      ensures Valid() && client.Valid()
      ensures var f := Fetch(old(client.cache), FetchLimit, now, net, localeDate, savedAt);
              client.cache == f.cache && State() == old(State()).StartLoad().FinishLoad(f.result)
    {
      loading := true;
      error := None;
      var result := client.FetchPosts(FetchLimit, now, net, localeDate, savedAt);
      if result.Success? {
        posts := result.posts;
        allPostsLoaded := |result.posts| <= displayedCount;
      } else {
        error := Some(result.error);
      }
      loading := false;
    }

    /** `loadMore()`. */
    method LoadMore()
      requires Valid()
      modifies this
      ensures Valid() && State() == old(State()).LoadMore()
    {
      if !allPostsLoaded && displayedCount < |posts| {
        displayedCount := displayedCount + PageSize;
        if displayedCount >= |posts| {
          allPostsLoaded := true;
        }
      }
    }
  }
}
