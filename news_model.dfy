/** The values the aggregator passes around: one normalised news item, and
    the sequence vocabulary (titles, source tags, subsequences) that the
    properties of the pipeline are stated in. */
module NewsModel {

  datatype Option<T> = None | Some(value: T)

  /** One normalised piece of content, as every adapter produces it.
      `time` is in whole seconds since the epoch; `score` is absent for
      sources that have none. */
  datatype NewsItem = NewsItem(
    title: string,
    url: string,
    source: string,
    time: int,
    score: Option<int>,
    description: string)

  /** The first `n` elements of `s`, or all of it when it is shorter
      (JavaScript's `slice(0, n)` and `substring(0, n)`). */
  function Take<T>(s: seq<T>, n: nat): (r: seq<T>)
    ensures |r| <= n && |r| <= |s|
    ensures r == s[..|r|]
    ensures |s| <= n ==> r == s
    ensures |s| >= n ==> |r| == n
  {
    if |s| <= n then s else s[..n]
  }

  /** The set of titles occurring in `s`. */
  function Titles(s: seq<NewsItem>): set<string> {
    set x | x in s :: x.title
  }

  /** The set of source tags occurring in `s`. */
  function Tags(s: seq<NewsItem>): set<string> {
    set x | x in s :: x.source
  }

  /** No two positions of `s` carry the same title. */
  predicate DistinctTitles(s: seq<NewsItem>) {
    forall i, j :: 0 <= i < j < |s| ==> s[i].title != s[j].title
  }

  /** `t` is obtained from `s` by deleting elements, keeping the order of the rest. */
  predicate IsSubsequence<T(==)>(t: seq<T>, s: seq<T>)
    decreases |s|
  {
    t == [] ||
    (s != [] && ((t[0] == s[0] && IsSubsequence(t[1..], s[1..])) || IsSubsequence(t, s[1..])))
  }

  /** Every element of a subsequence occurs in the sequence it was taken from. */
  lemma {:induction false} SubsequenceMembers<T>(t: seq<T>, s: seq<T>)
    requires IsSubsequence(t, s)
    ensures forall x :: x in t ==> x in s
    decreases |s|
  {
    if t != [] {
      if t[0] == s[0] && IsSubsequence(t[1..], s[1..]) {
        SubsequenceMembers(t[1..], s[1..]);
        forall x | x in t ensures x in s {
          if x != t[0] {
            assert x in t[1..];
          }
        }
      } else {
        SubsequenceMembers(t, s[1..]);
      }
    }
  }

  /** Every sequence is a subsequence of itself. */
  lemma {:induction false} SubsequenceReflexive<T>(s: seq<T>)
    ensures IsSubsequence(s, s)
  {
    if s != [] {
      SubsequenceReflexive(s[1..]);
    }
  }
}
