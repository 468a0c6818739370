# AI news aggregator — a verified model of its core

The system is a browser page that polls four news sources (Hacker News, a
Reddit subreddit, and two scraped pages: Wired AI and MIT Technology Review),
keeps AI-related items, and shows them newest first. It refreshes every two
hours. This project models, in Dafny, the part of `script.js` that is logic
rather than DOM and network glue:

- **Adapters** (`sources.dfy`). These are the four configured sources. They include:
  - the Hacker News transform: the first 20 story ids, keeping a story iff it
    has a url and its lower-cased title contains `ai`, `gpt`, `llm`, `neural`
    or `model`;
  - the Reddit listing transform;
  - the icon and display-name tables;
  - `fetchSource`'s dispatch. A thrown error gives `[]`, and a descriptor that
    matches no branch gives `undefined` (None).

  The network is a parameter. Each request is answered by a function of its URL,
  or of its story id for the per-story detail requests.
- **Aggregation** (`aggregation.dfy`, `sorting.dfy`, `dedup.dfy`). The
  `Aggregator` class holds the two globals `allNews` and `allSources`. A refresh
  does four things:
  - it resets them;
  - it merges the settled results that carry a list, adding their tags to the set;
  - it sorts newest first, in place, with a stable insertion sort over an array;
  - it drops every item whose title occurred at an earlier index (`findIndex`).

  The source filter used for display is a pure function of the list and the selection.
- **Countdown** (`auto_refresh.dfy`). The `RefreshTimer` class holds the
  `remaining` milliseconds. Each tick removes one second. When the time runs
  out, the tick resets it to two hours and fires a refresh. The label shows
  whole hours and minutes.
- `news_model.dfy` holds the item record and sequence vocabulary. `text.dfy`
  holds ASCII lower-casing, substring search and decimal rendering.

The main results are these:
- the refreshed list is newest first;
- it has no repeated title;
- it keeps every title that was merged;
- it is an order-preserving subsequence of the sorted list;
- `allSources` is exactly the tags of the merged items, so it covers the tags left after deduplication;
- the survivor of a title has the greatest time among its copies, and among equal times it is the earliest in merged order;
- the sort is the only ordering that is newest first and stable, so any stable engine sort gives the same list;
- the countdown fires exactly once every 7200 ticks.

Points of the code's behaviour that are easy to misread, as modelled:
- The code sorts by time first and removes repeated titles afterwards, so the
  newest copy of a title survives.
- A descriptor that matches no branch yields `undefined`, not an empty list.
- Nothing forces `title` to be non-empty for items from Reddit. Nothing forces
  `title` or `url` to be non-empty for items from the scraped pages. A Reddit
  url always starts with `https://reddit.com`.
- The countdown resets when `remaining <= 0`, i.e. on the tick that starts with
  at most one second left.

## Model

| member | source | states |
|---|---|---|
| `NewsModel.Take` | script.js:26 | `slice(0, n)`: the first `n` elements, or all of them when fewer; a prefix of the input |
| `Text.ToLower` | script.js:32-36 | lower-casing keeps the length and maps each ASCII capital to its small letter, all else unchanged |
| `Text.DecimalRoundTrip` | script.js:43 | the digits rendered into the description read back as the number rendered |
| `Text.IntToDecimal` | script.js:43 | a rendered integer is its digits without leading zeros, after a minus sign when negative, and they read back as its magnitude |
| `Sources.HackerNewsTransform` | script.js:25-49 | the loop emits, in id order, the relevant stories among the first 20 ids; at most 20 items, each tagged `hackernews`, with a url and an AI title; each emitted item is `StoryItem(story)`: the story's title, url, time and score, tag `hackernews`, and the description `StoryDescription` renders (`Score: <score> \| Comments: <descendants or 0>`) |
| `Sources.SelectStoriesMembers` | script.js:28-47 | an item of the selection `SelectStories` is emitted iff it comes from some id whose detail was fetched and the story is `IsRelevant`: it has a url, and its lower-cased title contains a keyword (`IsAiTitle`, script.js:32-36) |
| `Sources.RedditTransform` | script.js:56-66 | one item per post, in order: the post's title, time and score, url = `https://reddit.com` + permalink, description = exactly the first 200 characters of the self text (all of it when shorter), tag `reddit` |
| `Sources.SourceIcon` | script.js:231-239 | the pin icon is returned iff the tag is not in the table; otherwise the table's icon |
| `Sources.SourceName` | script.js:241-249 | the tag itself is returned iff it is not in the table; otherwise the table's name; a non-empty tag gets a non-empty name |
| `Sources.FetchSource` | script.js:160-189 | None (`undefined`) iff no api branch applies and there is no url; a throwing fetch gives `[]`; a successful Hacker News fetch gives the selection over the first 20 ids, a Reddit fetch the transformed listing, a page fetch the scraped items; Hacker News yields at most 20 relevant items; Reddit yields one item per post |
| `Sources.ConfiguredSourcesAnswer` | script.js:18-121 | none of the four configured sources answers `undefined` |
| `Aggregation.Results` | script.js:131-132 | one settled result per configured source, in configuration order: result i is `FetchSource` of the i-th descriptor, and every one carries a list |
| `Aggregation.Aggregator.constructor` | script.js:14-15 | the globals start as an empty list and an empty set |
| `Aggregation.Aggregator.Reset` | script.js:126-127 | a refresh starts from an empty list and an empty set |
| `Aggregation.Aggregator.AddTags` | script.js:137 | the set gains exactly the tags of the given items; the list is unchanged |
| `Aggregation.Aggregator.Merge` | script.js:134-139 | the list gains `Merged(results)`, the concatenated lists of the results that carry one in source order, and the set gains exactly their tags |
| `Aggregation.Aggregator.SortByTime` | script.js:142 | the list becomes its stable newest-first ordering; the set is unchanged |
| `Aggregation.Aggregator.DropRepeatedTitles` | script.js:145-147 | the list keeps exactly the items whose index is the first with their title |
| `Aggregation.Aggregator.FetchAllNews` | script.js:124-152 | after a refresh the list is the aggregate of the fetched results; it is newest first, has distinct titles and every merged title; the set holds the merged tags and covers the list's tags |
| `Sorting.SortInPlace` | script.js:142 | the in-place sort leaves the array equal to the stable newest-first ordering of its old contents |
| `Sorting.SortProperties` | script.js:142 | the ordering `SortNewestFirst` (an insertion sort on `b.time - a.time`) is non-increasing in time, a permutation, and keeps the relative order of items with equal time |
| `Sorting.StableSortIsUnique` | script.js:142 | any sequence that is newest first and keeps each time's items in input order is that ordering |
| `Dedup.FindTitle` | script.js:146 | `findIndex`: the first index with the title, -1 iff none |
| `Dedup.RemoveDuplicatesIsKeepUnseen` | script.js:145-147 | the `findIndex` filter `RemoveDuplicates` equals a left-to-right scan that keeps items whose title was not seen yet |
| `Dedup.RemoveDuplicatesCorrect` | script.js:145-147 | no title twice, every input title kept, input order kept, each survivor is the first item with its title |
| `Aggregation.AggregateCorrect` | script.js:126-147 | the refreshed list is newest first, has distinct titles, keeps every merged title, carries only tags in the set, and is a subsequence of the sorted list |
| `Aggregation.AggregateWinner` | script.js:142-147 | a title's survivor has the greatest time among its merged copies and is the first of those with that time in merged order |
| `Aggregation.AllSourcesFail` | script.js:134-139 | when every source fails, the list and the set are empty |
| `Aggregation.FailedSourceIgnored` | script.js:134-139 | a failed source changes neither the list nor the set |
| `Aggregation.NewerDuplicateWins` | script.js:142-147 | with `GPT-5 launches` at times 100 and 200 from two sources plus `New chip` at 50, the list is the time-200 copy and then `New chip` |
| `Aggregation.OnlySource` | script.js:197 | the result holds each item with the tag as often as the input does, no other item, in input order |
| `Aggregation.FilterBySource` | script.js:192-201 | no selection shows the whole list; a selection shows exactly the items with that tag, in list order |
| `AutoRefresh.TickStep` | script.js:289-293 | a tick fires iff at most a second was left; after firing, the full interval; otherwise exactly one second less; a countdown within the interval stays within it |
| `AutoRefresh.TruncRem` | script.js:295 | JavaScript's remainder: the dividend minus the divisor times the quotient rounded toward zero, with the dividend's sign and smaller than the divisor in size |
| `AutoRefresh.NextUpdate` | script.js:294-295 | for a non-negative remaining time, hours and minutes in `0..59` bracket it to the minute, and hours is at most 2 |
| `AutoRefresh.TwoHoursOnlyWhenFull` | script.js:294-295 | within the interval the label reads 2 hours only at the full interval, and then it reads 2 h 0 min |
| `AutoRefresh.CountsDown` | script.js:287-293 | from a fresh countdown, the first 7199 ticks remove a second each and fire nothing |
| `AutoRefresh.RefreshEveryInterval` | script.js:3 | the 7200th tick fires and restores the full two hours |
| `AutoRefresh.RefreshTimer.constructor` | script.js:287 | a timer starts at the full interval |
| `AutoRefresh.RefreshTimer.Tick` | script.js:288-297 | a tick's new `remaining` and refresh flag are exactly `TickStep` of the old time, and it returns the label values `NextUpdate` gives for the new time, with 0 ≤ hours ≤ 2 and 0 ≤ minutes < 60 |

## Left out

- Network I/O is not modelled. This covers `fetch`, reading JSON and text bodies, the CORS relay URL and its encoding, and `Promise.allSettled`. Each request is an input: a function from URL or story id to an outcome. Because every outcome is given, the sequential per-story requests and the parallel source requests have no observable order.
- The Wired and MIT page scraping (`DOMParser`, `querySelectorAll`, script.js:73-119) is not modelled. That code runs in the browser's DOM, which is outside this model. The items of a page come from the input `scrape(url)`.
- `renderNews`, `showLoading`, `showError`, `updateStats` and `updateTimestamp` only write to the page, so they are not modelled. The top-level `catch` of `fetchAllNews` is not modelled either, because no modelled step throws.
- `formatTime` is not modelled. It depends on the wall clock and on the locale's date format.
- Timestamps are whole numbers. The fractional `Date.now() / 1000` times, and `NaN` from a missing `time` in the sort comparator, are not modelled.
- `setInterval` and the event-loop scheduling are not modelled. This covers the extra timer started by every refresh, and the click and change listeners. `RefreshTimer.Tick` returns the refresh flag instead of calling `fetchAllNews`. Interleaving of two refreshes in flight is likewise not modelled.
- `Text.ToLower`: only ASCII letters are lower-cased. JavaScript's `toLowerCase` also maps other letters.
- `Sources.RedditTransform`: lengths count code points. JavaScript's `substring(0, 200)` counts UTF-16 code units.
- `Sources.SourceIcon`: tags that are names of `Object.prototype` members, such as `constructor`, are not modelled. In the source they find an inherited function rather than the default.
- `Sources.SourceName`: the same inherited-member case as `SourceIcon` is not modelled.
- `Sources.FetchSource`: the transform is chosen by the descriptor's id. In the source it is the descriptor's own `transform` field, and the two agree for the four configured sources. The descriptor's unused `detailApi` field is not modelled.
- `Sources.Story`: a title that is present but not a string is not modelled. In the source, lower-casing it would throw, and the story is skipped as when it is absent.
