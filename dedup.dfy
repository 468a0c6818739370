/** Removal of duplicate titles: an item survives exactly when its index is
    the first index carrying its title (`findIndex`), case-sensitive. A
    single left-to-right scan with a set of seen titles is the reference
    definition it is proved equal to. */
module Dedup {
  import opened NewsModel

  /** The first index of `s` whose item has `title`, or -1 when there is none. */
  function FindTitle(s: seq<NewsItem>, title: string): (r: int)
    ensures -1 <= r < |s|
    ensures r >= 0 ==> s[r].title == title
    ensures forall k :: 0 <= k < |s| && (r == -1 || k < r) ==> s[k].title != title
  {
    if s == [] then -1
    else if s[0].title == title then 0
    else
      var r := FindTitle(s[1..], title);
      if r == -1 then -1 else r + 1
  }

  /** The items of `s[i..]` whose index is the first with their title. */
  function KeepFirstFrom(s: seq<NewsItem>, i: nat): seq<NewsItem>
    requires i <= |s|
    decreases |s| - i
  {
    if i == |s| then []
    else (if FindTitle(s, s[i].title) == i then [s[i]] else []) + KeepFirstFrom(s, i + 1)
  }

  /** The filter that removes every item whose title occurred earlier. */
  function RemoveDuplicates(s: seq<NewsItem>): seq<NewsItem> {
    KeepFirstFrom(s, 0)
  }

  /** Reference definition: scan left to right, keeping an item when its
      title has not been seen. */
  function KeepUnseen(s: seq<NewsItem>, seen: set<string>): seq<NewsItem> {
    if s == [] then []
    else if s[0].title in seen then KeepUnseen(s[1..], seen)
    else [s[0]] + KeepUnseen(s[1..], seen + {s[0].title})
  }

  /** Index `i` is the first with its title exactly when no earlier item has that title. */
  lemma FirstIndexIffUnseen(s: seq<NewsItem>, i: nat)
    requires i < |s|
    ensures FindTitle(s, s[i].title) == i <==> s[i].title !in Titles(s[..i])
  {
    if s[i].title in Titles(s[..i]) {
      var y :| y in s[..i] && y.title == s[i].title;
    } else {
      forall k | 0 <= k < i ensures s[k].title != s[i].title {
        assert s[k] in s[..i];
      }
    }
  }

  lemma TitlesSnoc(s: seq<NewsItem>, x: NewsItem)
    ensures Titles(s + [x]) == Titles(s) + {x.title}
  {
    assert forall y :: y in s + [x] <==> y in s || y == x;
  }

  /** One step of the scan: the head is kept iff its title is unseen, and
      its title is seen from then on. */
  lemma KeepUnseenStep(s: seq<NewsItem>, seen: set<string>)
    requires s != []
    ensures KeepUnseen(s, seen) ==
            (if s[0].title in seen then [] else [s[0]]) + KeepUnseen(s[1..], seen + {s[0].title})
  {
    if s[0].title in seen {
      assert seen + {s[0].title} == seen;
    }
  }

  /** The `findIndex` filter and the seen-set scan agree. */
  lemma {:induction false} KeepFirstIsKeepUnseen(s: seq<NewsItem>, i: nat)
    requires i <= |s|
    ensures KeepFirstFrom(s, i) == KeepUnseen(s[i..], Titles(s[..i]))
    decreases |s| - i
  {
    if i < |s| {
      var seen, tail := Titles(s[..i]), s[i..];
      var here := if FindTitle(s, s[i].title) == i then [s[i]] else [];
      assert tail[0] == s[i] && tail[1..] == s[i + 1..];
      calc {
        KeepFirstFrom(s, i);
        here + KeepFirstFrom(s, i + 1);
        { KeepFirstIsKeepUnseen(s, i + 1); }
        here + KeepUnseen(s[i + 1..], Titles(s[..i + 1]));
        { assert s[..i + 1] == s[..i] + [s[i]];
          TitlesSnoc(s[..i], s[i]); }
        here + KeepUnseen(s[i + 1..], seen + {s[i].title});
        { FirstIndexIffUnseen(s, i); }
        (if s[i].title in seen then [] else [s[i]]) + KeepUnseen(tail[1..], seen + {tail[0].title});
        { KeepUnseenStep(tail, seen); }
        KeepUnseen(tail, seen);
      }
    } else {
      assert s[i..] == [];
    }
  }

  lemma RemoveDuplicatesIsKeepUnseen(s: seq<NewsItem>)
    ensures RemoveDuplicates(s) == KeepUnseen(s, {})
  {
    KeepFirstIsKeepUnseen(s, 0);
    assert s[0..] == s;
    assert Titles(s[..0]) == {};
  }

  /** The scan keeps each title not already seen exactly once, nothing else,
      and the order of `s`. */
  lemma {:induction false} KeepUnseenProperties(s: seq<NewsItem>, seen: set<string>)
    ensures DistinctTitles(KeepUnseen(s, seen))
    ensures Titles(KeepUnseen(s, seen)) == Titles(s) - seen
    ensures IsSubsequence(KeepUnseen(s, seen), s)
  {
    if s != [] {
      var rest := s[1..];
      assert s == [s[0]] + rest;
      assert Titles(s) == {s[0].title} + Titles(rest);
      if s[0].title in seen {
        KeepUnseenProperties(rest, seen);
      } else {
        var seen' := seen + {s[0].title};
        KeepUnseenProperties(rest, seen');
        var r := KeepUnseen(rest, seen');
        assert ([s[0]] + r)[1..] == r;
        assert Titles([s[0]] + r) == {s[0].title} + Titles(r);
        forall k | 0 <= k < |r| ensures r[k].title != s[0].title {
          assert r[k] in r;
        }
      }
    }
  }

  /** Every survivor is the first item of `s` with its title. */
  lemma {:induction false} KeepFirstFromFirst(s: seq<NewsItem>, i: nat)
    requires i <= |s|
    ensures forall x :: x in KeepFirstFrom(s, i) ==> FindTitle(s, x.title) >= 0 && s[FindTitle(s, x.title)] == x
    decreases |s| - i
  {
    if i < |s| {
      KeepFirstFromFirst(s, i + 1);
      var here := if FindTitle(s, s[i].title) == i then [s[i]] else [];
      assert KeepFirstFrom(s, i) == here + KeepFirstFrom(s, i + 1);
    }
  }

  /** After removal no title occurs twice, every title of the input still
      occurs, the result keeps the input's order, and each survivor is the
      first item in the input with its title. */
  lemma RemoveDuplicatesCorrect(s: seq<NewsItem>)
    ensures DistinctTitles(RemoveDuplicates(s))
    ensures Titles(RemoveDuplicates(s)) == Titles(s)
    ensures IsSubsequence(RemoveDuplicates(s), s)
    ensures forall x :: x in RemoveDuplicates(s) ==>
              FindTitle(s, x.title) >= 0 && s[FindTitle(s, x.title)] == x
  {
    RemoveDuplicatesIsKeepUnseen(s);
    KeepUnseenProperties(s, {});
    KeepFirstFromFirst(s, 0);
  }
}
