/** The refresh pipeline: reset the aggregate state, merge the settled
    per-source results, sort newest first, drop repeated titles; and the
    source filter applied to the aggregate list for display. */
module Aggregation {
  import opened NewsModel
  import opened Sorting
  import opened Dedup
  import opened Sources

  /** What one settled result adds: a fulfilled list contributes its items,
      `undefined` (None) nothing. An empty list is truthy and contributes nothing too. */
  function Contribution(result: Option<seq<NewsItem>>): seq<NewsItem> {
    match result
    case Some(items) => items
    case None => []
  }

  /** The concatenation of the contributions, in source order. */
  function Merged(results: seq<Option<seq<NewsItem>>>): seq<NewsItem> {
    if results == [] then []
    else Merged(results[..|results| - 1]) + Contribution(results[|results| - 1])
  }

  /** The aggregate list a refresh leaves behind. */
  function Aggregate(results: seq<Option<seq<NewsItem>>>): seq<NewsItem> {
    RemoveDuplicates(SortNewestFirst(Merged(results)))
  }

  /** The settled outcomes of fetching every configured source, in
      configuration order; none is `undefined`. */
  function Results(net: Network): (r: seq<Option<seq<NewsItem>>>)
    ensures |r| == |NewsSources|
    ensures forall i :: 0 <= i < |r| ==> r[i] == FetchSource(NewsSources[i], net)
    ensures forall i :: 0 <= i < |r| ==> r[i].Some?
  {
    ConfiguredSourcesAnswer(net);
    seq(|NewsSources|, i requires 0 <= i < |NewsSources| => FetchSource(NewsSources[i], net))
  }

  lemma {:induction false} TagsAppend(a: seq<NewsItem>, b: seq<NewsItem>)
    ensures Tags(a + b) == Tags(a) + Tags(b)
  {
    assert forall y :: y in a + b <==> y in a || y in b;
  }

  lemma {:induction false} MergedAppend(a: seq<Option<seq<NewsItem>>>, b: seq<Option<seq<NewsItem>>>)
    ensures Merged(a + b) == Merged(a) + Merged(b)
    decreases |b|
  {
    if b == [] {
      assert a + b == a;
    } else {
      var init, last := b[..|b| - 1], b[|b| - 1];
      MergedAppend(a, init);
      assert (a + b)[..|a + b| - 1] == a + init && (a + b)[|a + b| - 1] == last;
      calc {
        Merged(a + b);
        Merged(a + init) + Contribution(last);
        (Merged(a) + Merged(init)) + Contribution(last);
        Merged(a) + (Merged(init) + Contribution(last));
        Merged(a) + Merged(b);
      }
    }
  }

  /** The state the source keeps in two globals, rebuilt by every refresh. */
  class Aggregator {
    var allNews: seq<NewsItem>
    var allSources: set<string>

    constructor ()
      ensures allNews == [] && allSources == {}
    {
      allNews := [];
      allSources := {};
    }

    /** The reset at the start of a refresh. */
    method Reset()
      modifies this
      ensures allNews == [] && allSources == {}
    {
      allNews := [];
      allSources := {};
    }

    /** Adds the tag of every item to the source set, one item at a time. */
    method AddTags(items: seq<NewsItem>)
      modifies this
      ensures allSources == old(allSources) + Tags(items)
      ensures allNews == old(allNews)
    {
      for j := 0 to |items|
        invariant allSources == old(allSources) + Tags(items[..j])
        invariant allNews == old(allNews)
      {
        assert items[..j + 1] == items[..j] + [items[j]];
        TagsAppend(items[..j], [items[j]]);
        allSources := allSources + {items[j].source};
      }
      assert items[..|items|] == items;
    }

    /** Appends the items of each fulfilled result and records their tags. */
    method Merge(results: seq<Option<seq<NewsItem>>>)
      modifies this
      ensures allNews == old(allNews) + Merged(results)
      ensures allSources == old(allSources) + Tags(Merged(results))
    {
      for k := 0 to |results|
        invariant allNews == old(allNews) + Merged(results[..k])
        invariant allSources == old(allSources) + Tags(Merged(results[..k]))
      {
        assert results[..k + 1][..k] == results[..k];
        assert Merged(results[..k + 1]) == Merged(results[..k]) + Contribution(results[k]);
        TagsAppend(Merged(results[..k]), Contribution(results[k]));
        match results[k] {
          case Some(items) =>
            assert old(allNews) + Merged(results[..k]) + items == old(allNews) + (Merged(results[..k]) + items);
            allNews := allNews + items;
            AddTags(items);
          case None =>
        }
      }
      assert results[..|results|] == results;
    }

    /** Sorts the aggregate list newest first, in place. */
    method SortByTime()
      modifies this
      ensures allNews == SortNewestFirst(old(allNews))
      ensures allSources == old(allSources)
    {
      var a := new NewsItem[|allNews|](i reads this requires 0 <= i < |allNews| => allNews[i]);
      assert a[..] == allNews;
      SortInPlace(a);
      allNews := a[..];
    }

    /** Keeps each item whose index is the first with its title. */
    method DropRepeatedTitles()
      modifies this
      ensures allNews == RemoveDuplicates(old(allNews))
      ensures allSources == old(allSources)
    {
      allNews := RemoveDuplicates(allNews);
    }

    /** One refresh: fetch every source, merge, sort and deduplicate. */
    method FetchAllNews(net: Network)
      modifies this
      ensures allNews == Aggregate(Results(net))
      ensures allSources == Tags(Merged(Results(net)))
      ensures NewestFirst(allNews) && DistinctTitles(allNews)
      ensures Titles(allNews) == Titles(Merged(Results(net)))
      ensures Tags(allNews) <= allSources
    {
      Reset();
      var results := Results(net);
      Merge(results);
      assert allNews == Merged(results);
      SortByTime();
      DropRepeatedTitles();
      AggregateCorrect(results);
    }
  }

  // ----- Properties of the pipeline -----

  /** A subsequence of a newest-first list is newest first. */
  lemma {:induction false} SubsequenceNewestFirst(t: seq<NewsItem>, s: seq<NewsItem>)
    requires IsSubsequence(t, s) && NewestFirst(s)
    ensures NewestFirst(t)
    decreases |s|
  {
    if t != [] {
      assert NewestFirst(s[1..]);
      if t[0] == s[0] && IsSubsequence(t[1..], s[1..]) {
        SubsequenceNewestFirst(t[1..], s[1..]);
        SubsequenceMembers(t[1..], s[1..]);
        forall j | 0 < j < |t| ensures t[0].time >= t[j].time {
          assert t[j] in t[1..];
        }
      } else {
        SubsequenceNewestFirst(t, s[1..]);
      }
    }
  }

  /** Reordering does not change the titles present. */
  lemma TitlesOfPermutation(a: seq<NewsItem>, b: seq<NewsItem>)
    requires multiset(a) == multiset(b)
    ensures Titles(a) == Titles(b)
  {
    assert forall y :: y in a <==> y in multiset(a);
    assert forall y :: y in b <==> y in multiset(b);
  }

  /** After a refresh the list is newest first, has no repeated title, keeps
      every title of the merged items, carries only tags recorded in the
      source set, and keeps the sorted order. */
  lemma AggregateCorrect(results: seq<Option<seq<NewsItem>>>)
    ensures NewestFirst(Aggregate(results))
    ensures DistinctTitles(Aggregate(results))
    ensures Titles(Aggregate(results)) == Titles(Merged(results))
    ensures Tags(Aggregate(results)) <= Tags(Merged(results))
    ensures IsSubsequence(Aggregate(results), SortNewestFirst(Merged(results)))
  {
    var m := Merged(results);
    var s := SortNewestFirst(m);
    SortProperties(m);
    RemoveDuplicatesCorrect(s);
    TitlesOfPermutation(s, m);
    SubsequenceNewestFirst(Aggregate(results), s);
    SubsequenceMembers(Aggregate(results), s);
    forall y | y in s ensures y in m {
      assert y in multiset(s);
    }
  }

  /** If `s`'s first item titled `title` has time `t`, it is also the first
      item titled `title` among the items of time `t`. */
  lemma {:induction false} FirstTitleWithTime(s: seq<NewsItem>, title: string, t: int)
    requires FindTitle(s, title) >= 0 && s[FindTitle(s, title)].time == t
    ensures FindTitle(WithTime(s, t), title) >= 0
    ensures WithTime(s, t)[FindTitle(WithTime(s, t), title)] == s[FindTitle(s, title)]
  {
    var w := WithTime(s, t);
    if s[0].title == title {
      assert w == [s[0]] + WithTime(s[1..], t);
    } else {
      FirstTitleWithTime(s[1..], title, t);
      var w' := WithTime(s[1..], t);
      assert FindTitle(s, title) == FindTitle(s[1..], title) + 1;
      if s[0].time == t {
        assert w == [s[0]] + w';
        assert w[1..] == w';
        assert FindTitle(w, title) == FindTitle(w', title) + 1;
      } else {
        assert w == w';
      }
    }
  }

  /** The survivor of a title has the greatest time among the merged items
      with that title, and among those with that greatest time it is the one
      that came first in merged order (the sort is stable). */
  lemma AggregateWinner(results: seq<Option<seq<NewsItem>>>, x: NewsItem)
    requires x in Aggregate(results)
    ensures forall y :: y in Merged(results) && y.title == x.title ==> y.time <= x.time
    ensures var w := WithTime(Merged(results), x.time);
            FindTitle(w, x.title) >= 0 && w[FindTitle(w, x.title)] == x
  {
    var m := Merged(results);
    var s := SortNewestFirst(m);
    SortProperties(m);
    RemoveDuplicatesCorrect(s);
    var k := FindTitle(s, x.title);
    forall y | y in m && y.title == x.title ensures y.time <= x.time {
      assert y in multiset(m);
      var j :| 0 <= j < |s| && s[j] == y;
      assert k <= j;
    }
    FirstTitleWithTime(s, x.title, x.time);
  }

  lemma {:induction false} MergedOfEmpty(results: seq<Option<seq<NewsItem>>>)
    requires forall i :: 0 <= i < |results| ==> Contribution(results[i]) == []
    ensures Merged(results) == []
  {
    if results != [] {
      MergedOfEmpty(results[..|results| - 1]);
    }
  }

  /** When every source fails the list and the source set are empty. */
  lemma {:induction false} AllSourcesFail(results: seq<Option<seq<NewsItem>>>)
    requires forall i :: 0 <= i < |results| ==> Contribution(results[i]) == []
    ensures Aggregate(results) == []
    ensures Tags(Merged(results)) == {}
  {
    MergedOfEmpty(results);
  }

  lemma MergedSkipsFailed(results: seq<Option<seq<NewsItem>>>, i: nat)
    requires i < |results| && Contribution(results[i]) == []
    ensures Merged(results) == Merged(results[..i] + results[i + 1..])
  {
    var before, failed, after := results[..i], [results[i]], results[i + 1..];
    assert results == (before + failed) + after;
    assert failed[..0] == [];
    assert Merged(failed) == [];
    calc {
      Merged(results);
      { MergedAppend(before + failed, after); }
      Merged(before + failed) + Merged(after);
      { MergedAppend(before, failed); }
      Merged(before) + Merged(after);
      { MergedAppend(before, after); }
      Merged(before + after);
    }
  }

  /** A failed source (an empty list, or `undefined`) changes nothing: the
      outcome is that of the other sources alone. */
  lemma FailedSourceIgnored(results: seq<Option<seq<NewsItem>>>, i: nat)
    requires i < |results| && Contribution(results[i]) == []
    ensures Aggregate(results) == Aggregate(results[..i] + results[i + 1..])
    ensures Tags(Merged(results)) == Tags(Merged(results[..i] + results[i + 1..]))
  {
    MergedSkipsFailed(results, i);
  }

  // The worked example: two sources report "GPT-5 launches", the second one
  // later and together with an older "New chip".
  const LaunchA := NewsItem("GPT-5 launches", "https://a.example/1", "a", 100, None, "")
  const LaunchB := NewsItem("GPT-5 launches", "https://b.example/1", "b", 200, None, "")
  const Chip := NewsItem("New chip", "https://b.example/2", "b", 50, None, "")

  lemma ExampleMerged()
    ensures Merged([Some([LaunchA]), Some([LaunchB, Chip])]) == [LaunchA, LaunchB, Chip]
  {
    var results := [Some([LaunchA]), Some([LaunchB, Chip])];
    assert results[..1] == [Some([LaunchA])] && results[..1][..0] == [];
    assert Merged(results[..1]) == [] + [LaunchA];
  }

  lemma ExampleSorted()
    ensures SortNewestFirst([LaunchA, LaunchB, Chip]) == [LaunchB, LaunchA, Chip]
  {
    var m := [LaunchA, LaunchB, Chip];
    assert m[..2] == [LaunchA, LaunchB] && m[..2][..1] == [LaunchA] && [LaunchA][..0] == [];
    assert SortNewestFirst([LaunchA]) == Insert([], LaunchA) == [LaunchA];
    assert SortNewestFirst(m[..2]) == Insert([LaunchA], LaunchB) == [LaunchB, LaunchA];
    assert Insert([LaunchA], Chip) == [LaunchA] + Insert([], Chip) == [LaunchA, Chip];
    assert Insert([LaunchB, LaunchA], Chip) == [LaunchB] + Insert([LaunchA], Chip);
  }

  lemma ExampleDeduplicated()
    ensures RemoveDuplicates([LaunchB, LaunchA, Chip]) == [LaunchB, Chip]
  {
    var s := [LaunchB, LaunchA, Chip];
    assert s[1..] == [LaunchA, Chip] && s[1..][1..] == [Chip];
    assert FindTitle(s, LaunchA.title) == 0;
    assert FindTitle([Chip], Chip.title) == 0;
    assert FindTitle([LaunchA, Chip], Chip.title) == 1;
    assert FindTitle(s, Chip.title) == 2;
    assert KeepFirstFrom(s, 3) == [];
    assert KeepFirstFrom(s, 2) == [Chip];
    assert KeepFirstFrom(s, 1) == [Chip];
  }

  /** The newer copy of a title reported by two sources wins, and the older
      item from the second source follows it. */
  lemma NewerDuplicateWins()
    ensures Aggregate([Some([LaunchA]), Some([LaunchB, Chip])]) == [LaunchB, Chip]
  {
    ExampleMerged();
    ExampleSorted();
    ExampleDeduplicated();
  }

  // ----- The source filter -----

  /** The items of `news` whose tag is `tag`, in order. */
  function OnlySource(news: seq<NewsItem>, tag: string): (r: seq<NewsItem>)
    ensures forall x :: multiset(r)[x] == if x.source == tag then multiset(news)[x] else 0
    ensures IsSubsequence(r, news)
  {
    if news == [] then []
    else
      assert news == [news[0]] + news[1..];
      if news[0].source == tag then [news[0]] + OnlySource(news[1..], tag)
      else OnlySource(news[1..], tag)
  }

  /** The list shown for a selection: everything when nothing is selected,
      otherwise exactly the items from the selected source, in list order. */
  function FilterBySource(news: seq<NewsItem>, selected: string): (r: seq<NewsItem>)
    ensures selected == "" ==> r == news
    ensures selected != "" ==> forall x :: multiset(r)[x] == if x.source == selected then multiset(news)[x] else 0
    ensures IsSubsequence(r, news)
  {
    SubsequenceReflexive(news);
    if selected == "" then news else OnlySource(news, selected)
  }
}
