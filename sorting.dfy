/** The newest-first ordering of the aggregate list. The engine's sort is
    stable, so the result is specified by a functional insertion sort; the
    lemmas show that it is ordered, a permutation, stable, and the only
    sequence with those three properties, so any stable sort gives it. */
module Sorting {
  import opened NewsModel

  /** Items appear in non-increasing order of `time`. */
  predicate NewestFirst(s: seq<NewsItem>) {
    forall i, j :: 0 <= i < j < |s| ==> s[i].time >= s[j].time
  }

  /** The items of `s` whose time is exactly `t`, in their order in `s`. */
  function WithTime(s: seq<NewsItem>, t: int): seq<NewsItem> {
    if s == [] then []
    else (if s[0].time == t then [s[0]] else []) + WithTime(s[1..], t)
  }

  /** Places `x` after every element at least as new as it and before the rest. */
  function Insert(s: seq<NewsItem>, x: NewsItem): seq<NewsItem> {
    if s == [] || s[0].time < x.time then [x] + s
    else [s[0]] + Insert(s[1..], x)
  }

  /** Newest first, ties kept in their original order. */
  function SortNewestFirst(s: seq<NewsItem>): seq<NewsItem> {
    if s == [] then [] else Insert(SortNewestFirst(s[..|s| - 1]), s[|s| - 1])
  }

  lemma {:induction false} WithTimeAppend(a: seq<NewsItem>, b: seq<NewsItem>, t: int)
    ensures WithTime(a + b, t) == WithTime(a, t) + WithTime(b, t)
  {
    if a == [] {
      assert a + b == b;
    } else {
      var h := if a[0].time == t then [a[0]] else [];
      assert (a + b)[0] == a[0] && (a + b)[1..] == a[1..] + b;
      calc {
        WithTime(a + b, t);
        h + WithTime(a[1..] + b, t);
        { WithTimeAppend(a[1..], b, t); }
        h + (WithTime(a[1..], t) + WithTime(b, t));
        (h + WithTime(a[1..], t)) + WithTime(b, t);
        WithTime(a, t) + WithTime(b, t);
      }
    }
  }

  lemma {:induction false} WithTimeNone(s: seq<NewsItem>, t: int)
    requires forall i :: 0 <= i < |s| ==> s[i].time != t
    ensures WithTime(s, t) == []
  {
    if s != [] {
      WithTimeNone(s[1..], t);
    }
  }

  /** An item with time `t` is among the items with time `t`. */
  lemma {:induction false} WithTimeMember(s: seq<NewsItem>, x: NewsItem)
    requires x in s
    ensures x in WithTime(s, x.time)
  {
    if s[0] != x {
      WithTimeMember(s[1..], x);
    }
  }

  lemma {:induction false} InsertMultiset(s: seq<NewsItem>, x: NewsItem)
    ensures multiset(Insert(s, x)) == multiset(s) + multiset{x}
  {
    if s != [] && s[0].time >= x.time {
      InsertMultiset(s[1..], x);
      assert s == [s[0]] + s[1..];
    }
  }

  lemma {:induction false} InsertNewestFirst(s: seq<NewsItem>, x: NewsItem)
    requires NewestFirst(s)
    ensures NewestFirst(Insert(s, x))
  {
    if s != [] && s[0].time >= x.time {
      InsertNewestFirst(s[1..], x);
      InsertMultiset(s[1..], x);
      var r := Insert(s[1..], x);
      forall y | y in r ensures s[0].time >= y.time {
        assert y in multiset(r);
      }
      assert Insert(s, x) == [s[0]] + r;
    }
  }

  lemma {:induction false} InsertWithTime(s: seq<NewsItem>, x: NewsItem, t: int)
    requires NewestFirst(s)
    ensures WithTime(Insert(s, x), t) == WithTime(s, t) + WithTime([x], t)
  {
    if s == [] || s[0].time < x.time {
      assert ([x] + s)[1..] == s;
      assert [x][1..] == [];
      if t == x.time {
        WithTimeNone(s, t);
      }
    } else {
      InsertWithTime(s[1..], x, t);
      assert ([s[0]] + Insert(s[1..], x))[1..] == Insert(s[1..], x);
    }
  }

  lemma {:induction false} SortPermutation(s: seq<NewsItem>)
    ensures multiset(SortNewestFirst(s)) == multiset(s)
  {
    if s != [] {
      var init, last := s[..|s| - 1], s[|s| - 1];
      calc {
        multiset(SortNewestFirst(s));
        multiset(Insert(SortNewestFirst(init), last));
        { InsertMultiset(SortNewestFirst(init), last); }
        multiset(SortNewestFirst(init)) + multiset{last};
        { SortPermutation(init); }
        multiset(init) + multiset{last};
        { assert s == init + [last]; }
        multiset(s);
      }
    }
  }

  lemma {:induction false} SortOrdered(s: seq<NewsItem>)
    ensures NewestFirst(SortNewestFirst(s))
  {
    if s != [] {
      var init, last := s[..|s| - 1], s[|s| - 1];
      SortOrdered(init);
      InsertNewestFirst(SortNewestFirst(init), last);
    }
  }

  lemma SortOrderedPermutation(s: seq<NewsItem>)
    ensures NewestFirst(SortNewestFirst(s))
    ensures multiset(SortNewestFirst(s)) == multiset(s)
  {
    SortOrdered(s);
    SortPermutation(s);
  }

  lemma {:induction false} SortStable(s: seq<NewsItem>, t: int)
    ensures WithTime(SortNewestFirst(s), t) == WithTime(s, t)
  {
    if s != [] {
      var init, last := s[..|s| - 1], s[|s| - 1];
      var sortedInit := SortNewestFirst(init);
      calc {
        WithTime(SortNewestFirst(s), t);
        WithTime(Insert(sortedInit, last), t);
        { SortOrderedPermutation(init);
          InsertWithTime(sortedInit, last, t); }
        WithTime(sortedInit, t) + WithTime([last], t);
        { SortStable(init, t); }
        WithTime(init, t) + WithTime([last], t);
        { WithTimeAppend(init, [last], t);
          assert s == init + [last]; }
        WithTime(s, t);
      }
    }
  }

  /** The sorted sequence is ordered newest first, is a permutation of the
      input, and keeps the relative order of items with equal time. */
  lemma SortProperties(s: seq<NewsItem>)
    ensures NewestFirst(SortNewestFirst(s))
    ensures multiset(SortNewestFirst(s)) == multiset(s)
    ensures forall t :: WithTime(SortNewestFirst(s), t) == WithTime(s, t)
  {
    SortOrderedPermutation(s);
    forall t ensures WithTime(SortNewestFirst(s), t) == WithTime(s, t) {
      SortStable(s, t);
    }
  }

  /** Two newest-first orderings with the same items per time are equal: a
      sorted and stable arrangement of the input is unique. */
  lemma {:induction false} NewestFirstUnique(r1: seq<NewsItem>, r2: seq<NewsItem>)
    requires NewestFirst(r1) && NewestFirst(r2)
    requires forall t :: WithTime(r1, t) == WithTime(r2, t)
    ensures r1 == r2
    decreases |r1| + |r2|
  {
    if r1 == [] || r2 == [] {
      if r1 != [] {
        WithTimeMember(r1, r1[0]);
      } else if r2 != [] {
        WithTimeMember(r2, r2[0]);
      }
    } else {
      SameHead(r1, r2);
      forall t ensures WithTime(r1[1..], t) == WithTime(r2[1..], t) {
        DropHead(r1, r2, t);
      }
      NewestFirstUnique(r1[1..], r2[1..]);
      assert r1 == [r1[0]] + r1[1..] && r2 == [r2[0]] + r2[1..];
    }
  }

  /** Two non-empty newest-first orderings with the same items per time start alike. */
  lemma SameHead(r1: seq<NewsItem>, r2: seq<NewsItem>)
    requires r1 != [] && r2 != []
    requires NewestFirst(r1) && NewestFirst(r2)
    requires forall t :: WithTime(r1, t) == WithTime(r2, t)
    ensures r1[0] == r2[0]
  {
    SameHeadTime(r1, r2);
    HeadOfWithTime(r1);
    HeadOfWithTime(r2);
    assert WithTime(r1, r1[0].time) == WithTime(r2, r2[0].time);
  }

  /** Their first items have the same time: each is at least as new as the other. */
  lemma SameHeadTime(r1: seq<NewsItem>, r2: seq<NewsItem>)
    requires r1 != [] && r2 != []
    requires NewestFirst(r1) && NewestFirst(r2)
    requires forall t :: WithTime(r1, t) == WithTime(r2, t)
    ensures r1[0].time == r2[0].time
  {
    var x, y := r1[0], r2[0];
    WithTimeMember(r1, x);
    WithTimeMember(r2, y);
    WithTimeSub(r2, x.time);
    WithTimeSub(r1, y.time);
    HeadIsNewest(r2, x);
    HeadIsNewest(r1, y);
  }

  /** The first item of a sequence heads the items with its time. */
  lemma HeadOfWithTime(r: seq<NewsItem>)
    requires r != []
    ensures WithTime(r, r[0].time) != [] && WithTime(r, r[0].time)[0] == r[0]
  {
    assert WithTime(r, r[0].time) == [r[0]] + WithTime(r[1..], r[0].time);
  }

  lemma DropHead(r1: seq<NewsItem>, r2: seq<NewsItem>, t: int)
    requires r1 != [] && r2 != [] && r1[0] == r2[0]
    requires WithTime(r1, t) == WithTime(r2, t)
    ensures WithTime(r1[1..], t) == WithTime(r2[1..], t)
  {
    var h := if r1[0].time == t then [r1[0]] else [];
    assert WithTime(r1, t) == h + WithTime(r1[1..], t);
    assert WithTime(r2, t) == h + WithTime(r2[1..], t);
    assert (h + WithTime(r1[1..], t))[|h|..] == WithTime(r1[1..], t);
    assert (h + WithTime(r2[1..], t))[|h|..] == WithTime(r2[1..], t);
  }

  lemma HeadIsNewest(r: seq<NewsItem>, z: NewsItem)
    requires NewestFirst(r) && z in r
    ensures r[0].time >= z.time
  {
    var k :| 0 <= k < |r| && r[k] == z;
  }

  lemma {:induction false} WithTimeSub(s: seq<NewsItem>, t: int)
    ensures forall y :: y in WithTime(s, t) ==> y in s && y.time == t
  {
    if s != [] {
      WithTimeSub(s[1..], t);
    }
  }

  /** Any ordering that is newest first and stable is the one specified here. */
  lemma StableSortIsUnique(s: seq<NewsItem>, r: seq<NewsItem>)
    requires NewestFirst(r)
    requires forall t :: WithTime(r, t) == WithTime(s, t)
    ensures r == SortNewestFirst(s)
  {
    SortProperties(s);
    NewestFirstUnique(r, SortNewestFirst(s));
  }

  /** When the first `j` elements of a newest-first `s` are at least as new as
      `x` and the rest are older, inserting `x` puts it at index `j`. */
  lemma {:induction false} InsertAt(s: seq<NewsItem>, x: NewsItem, j: nat)
    requires j <= |s|
    requires forall k :: 0 <= k < j ==> s[k].time >= x.time
    requires forall k :: j <= k < |s| ==> s[k].time < x.time
    ensures Insert(s, x) == s[..j] + [x] + s[j..]
  {
    if j > 0 {
      InsertAt(s[1..], x, j - 1);
      assert s[..j] == [s[0]] + s[1..][..j - 1];
      assert s[j..] == s[1..][j - 1..];
    }
  }

  /** The array prefix left by one insertion step is `Insert(sorted, x)`. */
  lemma ShiftedIsInsert(sorted: seq<NewsItem>, x: NewsItem, j: nat, b: seq<NewsItem>)
    requires NewestFirst(sorted)
    requires j <= |sorted| && |b| == |sorted| + 1
    requires j > 0 ==> sorted[j - 1].time >= x.time
    requires forall k :: j <= k < |sorted| ==> sorted[k].time < x.time
    requires forall k :: 0 <= k < j ==> b[k] == sorted[k]
    requires b[j] == x
    requires forall k :: j < k < |b| ==> b[k] == sorted[k - 1]
    ensures b == Insert(sorted, x)
  {
    InsertAt(sorted, x, j);
    var r := sorted[..j] + [x] + sorted[j..];
    assert forall k :: 0 <= k < j ==> r[k] == sorted[k];
    assert forall k :: j < k < |b| ==> r[k] == sorted[k - 1];
  }

  /** Moves `a[i]` left past every older element of the sorted prefix `a[..i]`. */
  method InsertStep(a: array<NewsItem>, i: nat)
    requires i < a.Length
    requires NewestFirst(a[..i])
    modifies a
    ensures a[..i + 1] == Insert(old(a[..i]), old(a[i]))
    ensures forall k :: i < k < a.Length ==> a[k] == old(a[k])
  {
    var x := a[i];
    var j := i;
    while j > 0 && a[j - 1].time < x.time
      invariant 0 <= j <= i
      invariant forall k :: 0 <= k < j ==> a[k] == old(a[k])
      invariant forall k :: j < k <= i ==> a[k] == old(a[k - 1])
      invariant forall k :: j <= k < i ==> old(a[k]).time < x.time
      invariant forall k :: i < k < a.Length ==> a[k] == old(a[k])
    {
      a[j] := a[j - 1];
      j := j - 1;
    }
    a[j] := x;
    ShiftedIsInsert(old(a[..i]), x, j, a[..i + 1]);
  }

  /** The in-place insertion sort of the aggregate array. */
  method SortInPlace(a: array<NewsItem>)
    modifies a
    ensures a[..] == SortNewestFirst(old(a[..]))
  {
    ghost var input := a[..];
    var i := 0;
    while i < a.Length
      invariant 0 <= i <= a.Length
      invariant a[..i] == SortNewestFirst(input[..i])
      invariant forall k :: i <= k < a.Length ==> a[k] == input[k]
    {
      SortOrderedPermutation(input[..i]);
      InsertStep(a, i);
      assert input[..i + 1][..i] == input[..i];
      i := i + 1;
    }
    assert input[..a.Length] == input;
  }
}
