# Substack feed widget: fetch, cache and pagination

This project models the two pieces of logic behind the "latest posts" widget of a
small personal site, and proves properties of the model.

- **The feed client** (`src/services/substackFeed.js`). `fetchSubstackPosts(limit)`
  keeps one cache slot in browser storage. The slot holds the whole normalised post
  list with a timestamp. An entry younger than 30 minutes answers the call without
  touching the network. Otherwise the feed is downloaded, every item is normalised,
  and the whole list overwrites the slot. If anything fails, any cached entry answers
  instead, however old it is. With no entry, the answer is a fixed error. Every
  answer is cut to `limit` posts. An item's excerpt is its description with every
  `<...>` run deleted, cut to 150 characters, followed by `...`.
- **The view-model** (`src/composables/useSubstackFeed.js`). It holds the fetched
  posts, a loading flag, an error, the number of posts shown (3 at first) and an
  "all loaded" flag. `loadPosts` fetches up to 50 posts. `loadMore` shows 3 more
  while some post is still hidden.

Files:

- `wrappers.dfy`: the `Option` datatype (JavaScript's `null`, or a step that throws).
- `excerpt.dfy`, module `Excerpts`: the tag stripper and the excerpt rule.
- `feed.dfy`, module `SubstackFeed`: posts, raw items, network outcomes and results;
  normalisation; `Fetch`, the decision of one call as a function; and the class
  `FeedClient`, whose method `FetchPosts` updates its `cache` field in place and is
  proved equal to `Fetch`.
- `view_model.dfy`, module `SubstackViewModel`: `ViewState` (the five state cells
  as a value, with the derived values and the transitions) and the class
  `FeedViewModel`, whose methods update the cells in place and are proved equal to
  the transitions of `ViewState`.

The environment is passed in as parameters:

- `now` is the clock reading of the freshness test.
- `savedAt` is the clock reading stored with a new entry.
- `net` is what the request and the body parse produced.
- `localeDate` is the date formatter.

Some facts about the code that the contracts reflect:

- The hard-failure message is `Não foi possível carregar os artigos`.
- `canLoadMore` tests the "all loaded" flag as well as the count.
  `CanLoadMoreIffPostsHidden` shows the flag is redundant in valid states: more can be
  loaded exactly when fewer posts are shown than fetched.
- An excerpt is at most 153 characters long (150 plus `...`). A stripped text can keep
  a lone `<` or `>` (`1 < 2`). What is proved is `TagFree`: no `<` is followed by a `>`.

## Model

| member | source | states |
|---|---|---|
| `Excerpts.StripTags` | src/services/substackFeed.js:34 | the global replace of `<[^>]*>` with leftmost-match semantics; the result is never longer than the input |
| `Excerpts.StripTagsOnlyDeletes` | src/services/substackFeed.js:34 | stripping only deletes: the result is a subsequence of the input, its characters mapped to input positions in strictly increasing order; so every character of the result occurs in the input |
| `Excerpts.StripTagsIsTagFree` | src/services/substackFeed.js:34 | in the stripped text no `<` is followed by a `>`: every complete `<...>` run is gone |
| `Excerpts.StripTagsFixedPoints` | src/services/substackFeed.js:34 | the stripper leaves a text unchanged exactly when it holds no `<...>` run (both directions) |
| `Excerpts.StripTagsIdempotent` | src/services/substackFeed.js:34 | stripping twice gives the same as stripping once |
| `Excerpts.StripTagsKeepsPlainText` | src/services/substackFeed.js:34 | text without `<` passes through unchanged |
| `Excerpts.StripTagsDropsLeadingTag` | src/services/substackFeed.js:34 | a complete tag at the front is deleted up to its first `>`, and the scan resumes after it |
| `Excerpts.StripTagsKeepsLeadingChar` | src/services/substackFeed.js:34 | a leading character other than `<` is kept |
| `Excerpts.StripTagsRemovesTag` | src/services/substackFeed.js:34 | text without `<` followed by a tag `<t>` keeps the text, drops the tag and strips what follows |
| `Excerpts.Excerpt` | src/services/substackFeed.js:34 | the excerpt has at most 153 characters and ends in `...`; before it come the first min(150, n) characters of the n-character stripped description; it holds no `<...>` run |
| `Excerpts.StripExample` | src/services/substackFeed.js:34 | `<p>Hello <b>World</b></p>` followed by text without `<` strips to `Hello World` and that text |
| `Excerpts.ExcerptExample` | src/services/substackFeed.js:34 | that markup followed by 200 x's gives `Hello World`, 139 x's and `...`, with no `<` and no `>` |
| `SubstackFeed.SliceTo` | src/services/substackFeed.js:17 | `slice(0, limit)` is a prefix of its input, of length min(limit, n) for a non-negative limit and counted back from the end for a negative one |
| `SubstackFeed.IsFresh` | src/services/substackFeed.js:12 | an entry is fresh from its timestamp up to, but not including, 30 minutes (1 800 000 ms) later, and expired from then on |
| `SubstackFeed.FromCache` | src/services/substackFeed.js:15-18 | a cached answer is a success carrying the stored total, whose posts are a prefix of the stored posts of length min(limit, n) for a non-negative limit |
| `SubstackFeed.Normalise` | src/services/substackFeed.js:31-39 | one item maps to a post exactly when its description is a string; id is the guid, the excerpt follows the excerpt rule, the date is the formatted pubDate, a falsy thumbnail becomes null |
| `SubstackFeed.NormaliseAll` | src/services/substackFeed.js:31-39 | mapping the items succeeds exactly when every description is a string; it then keeps length and order, post i being item i normalised |
| `SubstackFeed.Download` | src/services/substackFeed.js:25-39 | the download yields a post list only for a readable body with status `ok` and an item array, and then it is the normalised items |
| `SubstackFeed.Fetch` | src/services/substackFeed.js:6-82 | every successful answer is the limit-prefix of the slot as it stands afterwards, with its total; a hard failure happens exactly when there is no entry and the download failed, and then has no posts and the fixed message; the slot is either kept or overwritten with the whole downloaded list stamped `savedAt`; a failed download never writes it |
| `SubstackFeed.FeedClient.constructor` | src/services/substackFeed.js:8-10 | the client starts with whatever entry storage holds |
| `SubstackFeed.FeedClient.FetchPosts` | src/services/substackFeed.js:6-82 | the answer and the new cache slot are those of `Fetch` on the slot as it was read; the stored total still counts the stored posts, so a successful answer's total is the length of the whole cached list |
| `SubstackFeed.FreshEntryNeedsNoNetwork` | src/services/substackFeed.js:9-18 | an entry younger than 30 minutes answers with its first `limit` posts and its total, keeps the slot, and the outcome does not depend on the network |
| `SubstackFeed.ExpiredEntryIsRefetched` | src/services/substackFeed.js:4-60 | an entry 30 minutes old or older does not answer: a working download replaces it and answers |
| `SubstackFeed.SuccessCachesWholeList` | src/services/substackFeed.js:29-60 | after a successful download the slot holds all n normalised posts (not cut by `limit`) with total n and the new timestamp; the answer is their first min(limit, n) in feed order |
| `SubstackFeed.BadResponseFails` | src/services/substackFeed.js:25-29 | a failed request, an unreadable body or a status other than `ok` makes the download fail |
| `SubstackFeed.BadItemFails` | src/services/substackFeed.js:31-34 | one item whose description cannot be stripped makes the whole download fail |
| `SubstackFeed.FailureFallsBack` | src/services/substackFeed.js:63-80 | on the failure path the slot is not written; any entry, fresh or expired, answers with its first `limit` posts; without one the answer is the fixed error with no posts |
| `SubstackFeed.AnswerWithinLimit` | src/services/substackFeed.js:15-80 | every answer holds at most `limit` posts |
| `SubstackFeed.CacheHitExample` | src/services/substackFeed.js:6-18 | a fresh entry of ten posts asked with the default limit of 3 answers with the first three and total ten |
| `SubstackViewModel.Initial` | src/composables/useSubstackFeed.js:5-9 | the initial state is valid, shows nothing and cannot load more |
| `SubstackViewModel.ViewState.DisplayedPosts` | src/composables/useSubstackFeed.js:11-13 | the displayed posts are a prefix of the posts, of length min(displayedCount, n) |
| `SubstackViewModel.ViewState.CanLoadMore` | src/composables/useSubstackFeed.js:15-17 | for a non-negative count, more can be loaded only while fewer posts are shown than fetched; before the flag is raised, exactly then |
| `SubstackViewModel.ViewState.LoadMore` | src/composables/useSubstackFeed.js:35-43 | a no-op when nothing more can be loaded; otherwise the count grows by exactly 3, the flag is raised exactly when the count reaches the number of posts, and nothing else changes; validity is kept |
| `SubstackViewModel.ViewState.StartLoad` | src/composables/useSubstackFeed.js:19-21 | loading starts with the error cleared and posts, count and flag unchanged |
| `SubstackViewModel.ViewState.FinishLoad` | src/composables/useSubstackFeed.js:23-32 | success replaces the posts and sets the flag to "n <= count"; failure sets the error and keeps the posts and flag; loading ends; the count is never reset; validity is kept |
| `SubstackViewModel.CanLoadMoreIffPostsHidden` | src/composables/useSubstackFeed.js:15-17 | in a valid state more can be loaded exactly when fewer posts are shown than fetched |
| `SubstackViewModel.LoadMoreGrowsWindow` | src/composables/useSubstackFeed.js:35-42 | an effective `loadMore` shows strictly more posts, with those already shown in front, and one page fewer is hidden |
| `SubstackViewModel.LoadMoreProgress` | src/composables/useSubstackFeed.js:35-42 | for the first `PagesLeft` calls, `loadMore` stays effective and each call adds one page to the count |
| `SubstackViewModel.LoadMoreExhausts` | src/composables/useSubstackFeed.js:15-42 | after `PagesLeft` calls or more, nothing more can be loaded, every post is shown and further calls change nothing |
| `SubstackViewModel.LoadedPostsComeFromCache` | src/composables/useSubstackFeed.js:23-27 | a successful `loadPosts` shows a prefix of what the cache slot now holds, at most 50 posts, with no error and not loading |
| `SubstackViewModel.SevenPostsScenario` | src/composables/useSubstackFeed.js:11-42 | with 7 posts loaded, 3 are shown and more can load; then 6 and more can load; then 7 and nothing more, and a further call changes nothing |
| `SubstackViewModel.FeedViewModel.constructor` | src/composables/useSubstackFeed.js:4-9 | the cells start as the initial state |
| `SubstackViewModel.FeedViewModel.LoadPosts` | src/composables/useSubstackFeed.js:19-33 | the client's slot and the new cells are those of fetching 50 posts, then starting and finishing the load; validity of both is kept |
| `SubstackViewModel.FeedViewModel.LoadMore` | src/composables/useSubstackFeed.js:35-43 | the new cells are `ViewState.LoadMore` of the old ones; validity is kept |

## Left out

- The network request and the body parse (`fetch`, `response.json()`) are not
  modelled. Their outcome is the parameter `net`.
- Browser storage and the JSON encoding of the entry are not modelled. The slot is
  the field `FeedClient.cache`. A `getItem` or `JSON.parse` that throws would reject
  the call. A stored value this code did not write could do the same. Neither is
  modelled.
- `FeedClient.FetchPosts`: assumes the storage write succeeds. A `setItem` that
  throws (storage full or disabled) would send the call to the fallback after the
  posts were normalised.
- `Date.now()` is not modelled. The two readings are the parameters `now` and
  `savedAt`.
- `toLocaleDateString('pt-BR')` is not modelled. It is locale-dependent code outside
  the repository, passed in as the function `localeDate`.
- Console logging is not modelled. It has no effect on behaviour.
- Vue's `ref` and `computed` become fields and functions. The `await` becomes the
  call to `FetchPosts`.
- The last-writer-wins race between overlapping `loadPosts` calls is not modelled.
  `FeedViewModel.LoadPosts` runs from start to end without interleaving. Only
  `StartLoad` names the observable loading state.
- `nuxt.config.ts` and `tailwind.config.js` are not modelled. They are build and
  styling configuration.
- `substring(0, 150)` counts UTF-16 code units. Strings here are sequences of
  characters, so surrogate pairs are not distinguished.
- `RawItem` fields other than `description` are strings. JavaScript would copy a
  value of any type. A truthy thumbnail that is not a string is not represented.
- `limit` is an integer. JavaScript would also accept a non-integer or `NaN`.
