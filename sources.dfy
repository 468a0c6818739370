/** The source adapters: the configured sources, the Hacker News keyword
    transform, the Reddit listing transform, the icon and display-name
    tables, and the dispatch that fetches one source and never fails. The
    network is a parameter: each request is answered by a function of its
    URL (or story id), so the model is deterministic. */
module Sources {
  import opened NewsModel
  import opened Text

  /** Static configuration of one source. An empty `api` or `url` stands for
      an absent one: both are falsy where the dispatch tests them. */
  datatype Descriptor = Descriptor(id: string, name: string, icon: string, api: string, url: string)

  const NewsSources: seq<Descriptor> := [
    Descriptor("hackernews", "Hacker News", "\U{1F4F0}",
               "https://hacker-news.firebaseio.com/v0/topstories.json", ""),
    Descriptor("reddit", "Reddit", "\U{1F916}",
               "https://www.reddit.com/r/ArtificialIntelligence/hot.json?limit=20", ""),
    Descriptor("wired", "Wired AI", "⚡", "", "https://www.wired.com/tag/artificial-intelligence/"),
    Descriptor("mit", "MIT AI", "\U{1F52C}", "", "https://www.technologyreview.com/topic/artificial-intelligence")
  ]

  // ----- Hacker News -----

  /** How many of the top story ids the transform looks at. */
  const TopStoryLimit: nat := 20

  /** Lower-case substrings that make a story title AI-related. */
  const AiKeywords: seq<string> := ["ai", "gpt", "llm", "neural", "model"]

  /** The fields of a story's detail record that the transform reads. A
      missing `url` is "" (falsy); a missing `title` is None, and lower-casing
      it throws. */
  datatype Story = Story(title: Option<string>, url: string, time: int, score: Option<int>, descendants: Option<int>)

  /** The lower-cased title contains one of the keywords, anywhere. */
  predicate IsAiTitle(title: string) {
    exists k | 0 <= k < |AiKeywords| :: Contains(ToLower(title), AiKeywords[k])
  }

  /** The story has a url and an AI-related title. */
  predicate IsRelevant(story: Story) {
    story.url != "" && story.title.Some? && IsAiTitle(story.title.value)
  }

  /** The description line `Score: <score> | Comments: <descendants or 0>`. */
  function StoryDescription(score: Option<int>, descendants: Option<int>): string {
    var comments := match descendants case Some(n) => n case None => 0;
    "Score: " + (match score case Some(n) => IntToDecimal(n) case None => "undefined")
      + " | Comments: " + IntToDecimal(comments)
  }

  function StoryItem(story: Story): NewsItem
    requires story.title.Some?
  {
    NewsItem(story.title.value, story.url, "hackernews", story.time, story.score,
             StoryDescription(story.score, story.descendants))
  }

  /** The item a story id contributes: none when fetching it failed, the
      record was null, or the story is not relevant. */
  function StoryContribution(detail: Option<Story>): seq<NewsItem> {
    match detail
    case Some(story) => if IsRelevant(story) then [StoryItem(story)] else []
    case None => []
  }

  /** The items the transform emits for `ids`, in order. */
  function SelectStories(ids: seq<int>, detail: int -> Option<Story>): seq<NewsItem> {
    if ids == [] then []
    else SelectStories(ids[..|ids| - 1], detail) + StoryContribution(detail(ids[|ids| - 1]))
  }

  /** `x` is the item the fetched detail `d` yields. */
  predicate EmittedFor(d: Option<Story>, x: NewsItem) {
    d.Some? && IsRelevant(d.value) && x == StoryItem(d.value)
  }

  lemma ContributionMembers(d: Option<Story>, x: NewsItem)
    ensures x in StoryContribution(d) <==> EmittedFor(d, x)
  {
  }

  /** Every emitted item comes from the detail of one of the ids. */
  lemma {:induction false} SelectedFromSomeId(ids: seq<int>, detail: int -> Option<Story>, x: NewsItem)
    returns (k: nat)
    requires x in SelectStories(ids, detail)
    ensures k < |ids| && EmittedFor(detail(ids[k]), x)
  {
    var init, last := ids[..|ids| - 1], ids[|ids| - 1];
    ContributionMembers(detail(last), x);
    if x in SelectStories(init, detail) {
      k := SelectedFromSomeId(init, detail, x);
      assert ids[k] == init[k];
    } else {
      k := |ids| - 1;
    }
  }

  /** Every relevant story among the ids is emitted. */
  lemma {:induction false} RelevantIsSelected(ids: seq<int>, detail: int -> Option<Story>, x: NewsItem, k: nat)
    requires k < |ids| && EmittedFor(detail(ids[k]), x)
    ensures x in SelectStories(ids, detail)
  {
    var init, last := ids[..|ids| - 1], ids[|ids| - 1];
    ContributionMembers(detail(last), x);
    if k < |init| {
      assert ids[k] == init[k];
      RelevantIsSelected(init, detail, x, k);
    }
  }

  /** An item is emitted exactly when it comes from a relevant story among `ids`. */
  lemma SelectStoriesMembers(ids: seq<int>, detail: int -> Option<Story>, x: NewsItem)
    ensures x in SelectStories(ids, detail) <==> exists k :: 0 <= k < |ids| && EmittedFor(detail(ids[k]), x)
  {
    if x in SelectStories(ids, detail) {
      var k := SelectedFromSomeId(ids, detail, x);
    }
    if exists k :: 0 <= k < |ids| && EmittedFor(detail(ids[k]), x) {
      var k :| 0 <= k < |ids| && EmittedFor(detail(ids[k]), x);
      RelevantIsSelected(ids, detail, x, k);
    }
  }

  /** The Hacker News transform: walks the first 20 story ids and keeps the
      relevant stories, in id order. */
  method HackerNewsTransform(data: seq<int>, detail: int -> Option<Story>) returns (news: seq<NewsItem>)
    ensures news == SelectStories(Take(data, TopStoryLimit), detail)
    ensures |news| <= TopStoryLimit
    ensures forall x :: x in news ==> x.source == "hackernews" && x.url != "" && IsAiTitle(x.title)
  {
    var top := Take(data, TopStoryLimit);
    news := [];
    for k := 0 to |top|
      invariant news == SelectStories(top[..k], detail)
      invariant |news| <= k
      invariant forall x :: x in news ==> x.source == "hackernews" && x.url != "" && IsAiTitle(x.title)
    {
      match detail(top[k]) {
        case Some(story) =>
          if IsRelevant(story) {
            news := news + [StoryItem(story)];
          }
        case None =>
      }
      assert top[..k + 1][..k] == top[..k];
    }
    assert top[..|top|] == top;
  }

  // ----- Reddit -----

  /** The fields of one listing entry (`post.data`) that the transform reads. */
  datatype RedditPost = RedditPost(title: string, permalink: string, createdUtc: int, score: int, selftext: string)

  const RedditBase := "https://reddit.com"

  /** Longest description kept from a post's self text. */
  const DescriptionLimit: nat := 200

  function PostItem(post: RedditPost): NewsItem {
    NewsItem(post.title, RedditBase + post.permalink, "reddit", post.createdUtc, Some(post.score),
             if post.selftext != "" then Take(post.selftext, DescriptionLimit) else "")
  }

  /** One item per post, in listing order: the title, time and score are the post's,
      the url is the Reddit base followed by the permalink, and the
      description is the first 200 characters of the self text. */
  function RedditTransform(posts: seq<RedditPost>): (r: seq<NewsItem>)
    ensures |r| == |posts|
    ensures forall i :: 0 <= i < |posts| ==>
              && r[i].title == posts[i].title
              && r[i].source == "reddit"
              && r[i].time == posts[i].createdUtc
              && r[i].score == Some(posts[i].score)
              && |r[i].url| == |RedditBase| + |posts[i].permalink|
              && r[i].url[..|RedditBase|] == RedditBase
              && r[i].url[|RedditBase|..] == posts[i].permalink
              && |r[i].description| <= DescriptionLimit
              && |r[i].description| <= |posts[i].selftext|
              && r[i].description == posts[i].selftext[..|r[i].description|]
              && r[i].description == Take(posts[i].selftext, DescriptionLimit)
              && (|posts[i].selftext| <= DescriptionLimit ==> r[i].description == posts[i].selftext)
  {
    seq(|posts|, i requires 0 <= i < |posts| => PostItem(posts[i]))
  }

  // ----- Icon and display-name lookups -----

  const SourceIcons: map<string, string> :=
    map["twitter" := "\U{1F426}", "reddit" := "\U{1F916}", "news" := "\U{1F4F0}", "hackernews" := "\U{1F527}"]

  const DefaultIcon := "\U{1F4CC}"

  const SourceNames: map<string, string> :=
    map["twitter" := "Twitter", "reddit" := "Reddit", "news" := "AI News", "hackernews" := "Hacker News"]

  /** The icon of a source tag: the table's entry, the pin for any other tag. */
  function SourceIcon(tag: string): (icon: string)
    ensures icon == DefaultIcon <==> tag !in SourceIcons
    ensures tag in SourceIcons ==> icon == SourceIcons[tag]
  {
    if tag in SourceIcons then SourceIcons[tag] else DefaultIcon
  }

  /** The display name of a source tag: the table's entry, the tag itself for
      any other tag. No known tag is its own display name. */
  function SourceName(tag: string): (name: string)
    ensures name == tag <==> tag !in SourceNames
    ensures tag in SourceNames ==> name == SourceNames[tag]
    ensures tag != "" ==> name != ""
  {
    if tag in SourceNames then SourceNames[tag] else tag
  }

  // ----- Fetching one source -----

  /** The outcome of a request and of parsing its body: it threw, or it gave a payload. */
  datatype Fetch<T> = Threw | Fetched(value: T)

  /** What the network answers. `topStories` and `listing` are keyed by the
      api URL, `scrape` by the page URL (its proxied fetch followed by the
      source's markup transform), `detail` by story id (None when that
      request threw or gave null). */
  datatype Network = Network(
    topStories: string -> Fetch<seq<int>>,
    detail: int -> Option<Story>,
    listing: string -> Fetch<seq<RedditPost>>,
    scrape: string -> Fetch<seq<NewsItem>>)

  /** The descriptor takes one of the two api branches. */
  predicate UsesApi(d: Descriptor) {
    d.api != "" && (d.id == "hackernews" || d.id == "reddit")
  }

  /** Fetches one source. A successful fetch gives its branch's transform of
      the payload, a failure anywhere gives the empty list, and a descriptor
      that matches no branch gives None (`undefined`). */
  function FetchSource(d: Descriptor, net: Network): (r: Option<seq<NewsItem>>)
    ensures r == None <==> !UsesApi(d) && d.url == ""
    ensures d.api != "" && d.id == "hackernews" && net.topStories(d.api).Threw? ==> r == Some([])
    ensures d.api != "" && d.id == "reddit" && net.listing(d.api).Threw? ==> r == Some([])
    ensures !UsesApi(d) && d.url != "" && net.scrape(d.url).Threw? ==> r == Some([])
    ensures d.api != "" && d.id == "hackernews" && net.topStories(d.api).Fetched? ==>
              r == Some(SelectStories(Take(net.topStories(d.api).value, TopStoryLimit), net.detail))
    ensures d.api != "" && d.id == "reddit" && net.listing(d.api).Fetched? ==>
              r == Some(RedditTransform(net.listing(d.api).value))
    ensures !UsesApi(d) && d.url != "" && net.scrape(d.url).Fetched? ==> r == Some(net.scrape(d.url).value)
    ensures d.api != "" && d.id == "hackernews" ==>
              r.Some? && |r.value| <= TopStoryLimit &&
              forall x :: x in r.value ==> x.source == "hackernews" && x.url != "" && IsAiTitle(x.title)
    ensures d.api != "" && d.id == "reddit" && net.listing(d.api).Fetched? ==>
              r.Some? && |r.value| == |net.listing(d.api).value| &&
              forall x :: x in r.value ==> x.source == "reddit"
  {
    if d.api != "" && d.id == "hackernews" then
      match net.topStories(d.api)
      case Threw => Some([])
      case Fetched(ids) =>
        var news := SelectStories(Take(ids, TopStoryLimit), net.detail);
        SelectStoriesBounds(Take(ids, TopStoryLimit), net.detail);
        Some(news)
    else if d.api != "" && d.id == "reddit" then
      match net.listing(d.api)
      case Threw => Some([])
      case Fetched(posts) => Some(RedditTransform(posts))
    else if d.url != "" then
      match net.scrape(d.url)
      case Threw => Some([])
      case Fetched(items) => Some(items)
    else
      None
  }

  /** At most one item per id, each a relevant Hacker News story. */
  lemma {:induction false} SelectStoriesBounds(ids: seq<int>, detail: int -> Option<Story>)
    ensures |SelectStories(ids, detail)| <= |ids|
    ensures forall x :: x in SelectStories(ids, detail) ==>
              x.source == "hackernews" && x.url != "" && IsAiTitle(x.title)
  {
    if ids != [] {
      SelectStoriesBounds(ids[..|ids| - 1], detail);
    }
  }

  /** Every configured source takes a branch, so none answers `undefined`. */
  lemma ConfiguredSourcesAnswer(net: Network)
    ensures forall i :: 0 <= i < |NewsSources| ==> FetchSource(NewsSources[i], net).Some?
  {
  }
}
