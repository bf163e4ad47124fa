/** When the order of a list matters to the first elements of it that are left
    after sorting and removing neighbours that are the same. */
module Reordering {
  import opened Sorting

  /** The first `n` that are left. */
  function Left<T>(leq: (T, T) -> bool, same: (T, T) -> bool, n: nat, s: seq<T>): seq<T> {
    Truncate(Dedup(same, Sort(leq, s)), n)
  }

  /** What is the same is of the same rank. */
  ghost predicate Finer<T(!new)>(leq: (T, T) -> bool, same: (T, T) -> bool) {
    forall x, y :: same(x, y) ==> SameRank(leq, x, y)
  }

  // ----- Retaining -----------------------------------------------------------

  lemma {:induction false} RetainAppend<T>(keep: T -> bool, a: seq<T>, b: seq<T>)
    ensures Retain(keep, a + b) == Retain(keep, a) + Retain(keep, b)
  {
    if a == [] {
      assert a + b == b;
    } else {
      var rest := a[1..] + b;
      assert (a + b)[1..] == rest && (a + b)[0] == a[0];
      RetainAppend(keep, a[1..], b);
      assert Retain(keep, a + b) == (if keep(a[0]) then [a[0]] else []) + Retain(keep, rest);
    }
  }

  lemma {:induction false} RetainNone<T>(keep: T -> bool, s: seq<T>)
    requires forall i :: 0 <= i < |s| ==> !keep(s[i])
    ensures Retain(keep, s) == []
  {
    if s != [] {
      RetainNone(keep, s[1..]);
    }
  }

  /** As many elements are kept in any order. */
  lemma RetainedInAnyOrder<T(!new)>(keep: T -> bool, a: seq<T>, b: seq<T>)
    requires multiset(a) == multiset(b)
    ensures |Retain(keep, a)| == |Retain(keep, b)|
  {
    RetainOfReordered(keep, a, b);
    assert |multiset(Retain(keep, a))| == |Retain(keep, a)|;
    assert |multiset(Retain(keep, b))| == |Retain(keep, b)|;
  }

  // ----- Ranks are the same in any order -------------------------------------

  function UpTo<T>(leq: (T, T) -> bool, x: T): T -> bool {
    y => leq(y, x)
  }

  /** Of a sorted list only what stands before an element that is above `x` is at
      most `x`. */
  lemma UpToBefore<T(!new)>(leq: (T, T) -> bool, x: T, s: seq<T>, i: nat)
    requires TotalPreorder(leq) && Sorted(leq, s) && i < |s| && !leq(s[i], x)
    ensures |Retain(UpTo(leq, x), s)| <= i
  {
    hide Retain;
    var low, end := UpTo(leq, x), s[i..];
    assert s == s[..i] + end;
    RetainAppend(low, s[..i], end);
    forall k | 0 <= k < |end| ensures !low(end[k]) {
      assert k > 0 ==> leq(s[i], s[i + k]);
    }
    RetainNone(low, end);
  }

  /** And all that stands before an element is at most it. */
  lemma UpToAfter<T(!new)>(leq: (T, T) -> bool, s: seq<T>, i: nat)
    requires TotalPreorder(leq) && Sorted(leq, s) && i < |s|
    ensures |Retain(UpTo(leq, s[i]), s)| > i
  {
    hide Retain;
    var low := UpTo(leq, s[i]);
    var start := s[..i + 1];
    assert s == start + s[i + 1..];
    RetainAppend(low, start, s[i + 1..]);
    forall k | 0 <= k < |start| ensures low(start[k]) {
      assert k < i ==> leq(s[k], s[i]);
      assert leq(s[i], s[i]);
    }
    RetainAll(low, start);
  }

  /** Sorted lists of the same elements have the same ranks at the same places. */
  lemma RanksAtMost<T(!new)>(leq: (T, T) -> bool, a: seq<T>, b: seq<T>, i: nat)
    requires TotalPreorder(leq) && Sorted(leq, a) && Sorted(leq, b) && multiset(a) == multiset(b)
    requires i < |a| && i < |b|
    ensures leq(a[i], b[i])
  {
    hide Retain, UpTo, Sorted, TotalPreorder;
    UpToAfter(leq, b, i);
    RetainedInAnyOrder(UpTo(leq, b[i]), a, b);
    if !leq(a[i], b[i]) {
      UpToBefore(leq, b[i], a, i);
    }
  }

  ghost predicate RanksAgree<T(!new)>(leq: (T, T) -> bool, a: seq<T>, b: seq<T>) {
    |a| == |b| && forall i :: 0 <= i < |a| ==> SameRank(leq, a[i], b[i])
  }

  lemma SortedRanksAgree<T(!new)>(leq: (T, T) -> bool, a: seq<T>, b: seq<T>)
    requires TotalPreorder(leq) && multiset(a) == multiset(b)
    ensures RanksAgree(leq, Sort(leq, a), Sort(leq, b))
  {
    hide Sort, TotalPreorder;
    var x, y := Sort(leq, a), Sort(leq, b);
    SortSorts(leq, a);
    SortSorts(leq, b);
    SortKeeps(leq, a);
    SortKeeps(leq, b);
    assert |multiset(x)| == |x| && |multiset(y)| == |y|;
    forall i | 0 <= i < |x| ensures SameRank(leq, x[i], y[i]) {
      RanksAtMost(leq, x, y, i);
      RanksAtMost(leq, y, x, i);
    }
  }

  lemma {:induction false} DedupedRanksAgree<T(!new)>(leq: (T, T) -> bool, a: seq<T>, b: seq<T>)
    requires TotalPreorder(leq) && RanksAgree(leq, a, b)
    ensures RanksAgree(leq, Dedup(Same(leq), a), Dedup(Same(leq), b))
    decreases |a|
  {
    if |a| > 1 {
      assert SameRank(leq, a[0], b[0]) && SameRank(leq, a[1], b[1]);
      if Same(leq)(a[0], a[1]) {
        DedupedRanksAgree(leq, [a[0]] + a[2..], [b[0]] + b[2..]);
      } else {
        DedupedRanksAgree(leq, a[1..], b[1..]);
      }
    }
  }

  // ----- Groups of one rank --------------------------------------------------

  /** Two of one rank as one of those that are left are the same. */
  ghost predicate OneOfEachRank<T(!new)>(leq: (T, T) -> bool, same: (T, T) -> bool, left: seq<T>, all: multiset<T>) {
    forall k, x, y :: k in left && x in all && y in all && SameRank(leq, k, x) && SameRank(leq, k, y) ==> same(x, y)
  }

  lemma OneOfFewer<T(!new)>(leq: (T, T) -> bool, same: (T, T) -> bool, left: seq<T>, all: multiset<T>,
                            fewer: seq<T>, within: multiset<T>)
    requires OneOfEachRank(leq, same, left, all)
    requires forall k :: k in fewer ==> k in left
    requires within <= all
    ensures OneOfEachRank(leq, same, fewer, within)
  {
  }

  ghost predicate Within<T(!new)>(same: (T, T) -> bool, between: (T, T) -> bool) {
    forall x, y :: same(x, y) ==> between(x, y)
  }

  lemma SameWithin<T(!new)>(leq: (T, T) -> bool, same: (T, T) -> bool, between: (T, T) -> bool, x: T, y: T)
    requires Finer(leq, between) && Within(same, between) && same(x, y)
    ensures between(x, y) && Same(leq)(x, y)
  {
  }

  lemma DedupFew<T>(same: (T, T) -> bool, s: seq<T>)
    requires |s| <= 1
    ensures Dedup(same, s) == s
  {
  }

  lemma DedupMerges<T>(same: (T, T) -> bool, s: seq<T>)
    requires |s| > 1 && same(s[0], s[1])
    ensures Dedup(same, s) == Dedup(same, [s[0]] + s[2..])
  {
  }

  lemma DedupSplits<T>(same: (T, T) -> bool, s: seq<T>, n: nat)
    requires |s| > 1 && !same(s[0], s[1]) && n > 0
    ensures Truncate(Dedup(same, s), n) == [s[0]] + Truncate(Dedup(same, s[1..]), n - 1)
  {
  }

  lemma FirstDiffers<T(!new)>(leq: (T, T) -> bool, same: (T, T) -> bool, between: (T, T) -> bool, n: nat, s: seq<T>)
    requires TotalPreorder(leq) && Finer(leq, between) && |s| > 1 && n > 0 && !same(s[0], s[1])
    requires OneOfEachRank(leq, same, Truncate(Dedup(between, s), n), multiset(s))
    ensures !Same(leq)(s[0], s[1]) && !between(s[0], s[1])
  {
    hide Dedup;
    DedupStarts(between, s);
    assert Truncate(Dedup(between, s), n)[0] == s[0];
    assert s[0] in multiset(s) && s[1] in multiset(s) && leq(s[0], s[0]);
  }

  lemma WithoutSecond<T>(s: seq<T>)
    requires |s| > 1
    ensures multiset([s[0]] + s[2..]) <= multiset(s)
  {
    assert s == [s[0]] + [s[1]] + s[2..];
  }

  lemma MergeStep<T(!new)>(leq: (T, T) -> bool, same: (T, T) -> bool, between: (T, T) -> bool, n: nat, s: seq<T>)
    requires Finer(leq, between) && Within(same, between) && |s| > 1 && same(s[0], s[1])
    requires OneOfEachRank(leq, same, Truncate(Dedup(between, s), n), multiset(s))
    ensures var rest := [s[0]] + s[2..];
            && Dedup(same, s) == Dedup(same, rest) && Dedup(Same(leq), s) == Dedup(Same(leq), rest)
            && OneOfEachRank(leq, same, Truncate(Dedup(between, rest), n), multiset(rest))
  {
    hide Dedup, OneOfEachRank, Truncate, Finer, Within, Same;
    var rest := [s[0]] + s[2..];
    SameWithin(leq, same, between, s[0], s[1]);
    DedupMerges(same, s);
    DedupMerges(between, s);
    DedupMerges(Same(leq), s);
    WithoutSecond(s);
    var left := Truncate(Dedup(between, s), n);
    OneOfFewer(leq, same, left, multiset(s), left, multiset(rest));
  }

  lemma SplitStep<T(!new)>(leq: (T, T) -> bool, same: (T, T) -> bool, between: (T, T) -> bool, n: nat, s: seq<T>)
    requires TotalPreorder(leq) && Finer(leq, between) && |s| > 1 && n > 0 && !same(s[0], s[1])
    requires OneOfEachRank(leq, same, Truncate(Dedup(between, s), n), multiset(s))
    ensures var rest := s[1..];
            && Truncate(Dedup(same, s), n) == [s[0]] + Truncate(Dedup(same, rest), n - 1)
            && Truncate(Dedup(Same(leq), s), n) == [s[0]] + Truncate(Dedup(Same(leq), rest), n - 1)
            && OneOfEachRank(leq, same, Truncate(Dedup(between, rest), n - 1), multiset(rest))
  {
    hide Dedup, TotalPreorder, OneOfEachRank, Truncate;
    var rest := s[1..];
    FirstDiffers(leq, same, between, n, s);
    DedupSplits(same, s, n);
    DedupSplits(between, s, n);
    DedupSplits(Same(leq), s, n);
    assert s == [s[0]] + rest;
    var left, fewer := Truncate(Dedup(between, s), n), Truncate(Dedup(between, rest), n - 1);
    OneOfFewer(leq, same, left, multiset(s), fewer, multiset(rest));
  }

  /** Where the same is what is of the same rank, as far as it goes, it doesn't matter
      which of the two is taken. */
  lemma {:induction false} LeftByRank<T(!new)>(leq: (T, T) -> bool, same: (T, T) -> bool, between: (T, T) -> bool,
                                               n: nat, s: seq<T>)
    requires TotalPreorder(leq) && Finer(leq, between) && Within(same, between)
    requires OneOfEachRank(leq, same, Truncate(Dedup(between, s), n), multiset(s))
    ensures Truncate(Dedup(same, s), n) == Truncate(Dedup(Same(leq), s), n)
    decreases |s|
  {
    hide Dedup, TotalPreorder, OneOfEachRank, Same, Finer, Within;
    if |s| <= 1 {
      DedupFew(same, s);
      DedupFew(Same(leq), s);
    } else if n > 0 {
      if same(s[0], s[1]) {
        MergeStep(leq, same, between, n, s);
        LeftByRank(leq, same, between, n, [s[0]] + s[2..]);
      } else {
        SplitStep(leq, same, between, n, s);
        LeftByRank(leq, same, between, n - 1, s[1..]);
      }
    }
  }

  /** Where there is one of each rank among those that are left, another order
      leaves the same ranks at the same places. */
  lemma LeftRanksAgree<T(!new)>(leq: (T, T) -> bool, same: (T, T) -> bool, n: nat, a: seq<T>, b: seq<T>)
    requires TotalPreorder(leq) && Finer(leq, same) && multiset(a) == multiset(b)
    requires OneOfEachRank(leq, same, Left(leq, same, n, a), multiset(a))
    ensures RanksAgree(leq, Left(leq, same, n, a), Left(leq, same, n, b))
  {
    hide Sort, Dedup;
    var x, y := Sort(leq, a), Sort(leq, b);
    SortKeeps(leq, a);
    SortKeeps(leq, b);
    LeftByRank(leq, same, same, n, x);
    SortedRanksAgree(leq, a, b);
    DedupedRanksAgree(leq, x, y);
    var left, other := Truncate(Dedup(Same(leq), x), n), Truncate(Dedup(Same(leq), y), n);
    assert RanksAgree(leq, left, other);
    OneOfOther(leq, same, left, other, multiset(a));
    LeftByRank(leq, same, Same(leq), n, y);
  }

  lemma OneOfOther<T(!new)>(leq: (T, T) -> bool, same: (T, T) -> bool, left: seq<T>, other: seq<T>, all: multiset<T>)
    requires TotalPreorder(leq) && RanksAgree(leq, left, other) && OneOfEachRank(leq, same, left, all)
    ensures OneOfEachRank(leq, same, other, all)
  {
    forall k, x, y | k in other && x in all && y in all && SameRank(leq, k, x) && SameRank(leq, k, y)
      ensures same(x, y)
    {
      var i :| 0 <= i < |other| && other[i] == k;
      assert SameRank(leq, left[i], other[i]);
      assert SameRank(leq, left[i], x) && SameRank(leq, left[i], y);
    }
  }

  // ----- Below a rank --------------------------------------------------------

  /** The elements before the first that `x` is at most. */
  function Below<T>(leq: (T, T) -> bool, x: T, s: seq<T>): (r: seq<T>)
    ensures r <= s
    ensures forall i :: 0 <= i < |r| ==> !leq(x, r[i])
    ensures |r| < |s| ==> leq(x, s[|r|])
  {
    if s == [] || leq(x, s[0]) then [] else [s[0]] + Below(leq, x, s[1..])
  }

  lemma {:induction false} InsertAt<T>(leq: (T, T) -> bool, x: T, s: seq<T>)
    ensures var below := Below(leq, x, s); Insert(leq, x, s) == below + [x] + s[|below|..]
  {
    if s != [] && !leq(x, s[0]) {
      InsertAt(leq, x, s[1..]);
      var rest := Below(leq, x, s[1..]);
      assert s[1..][|rest|..] == s[|rest| + 1..];
    }
  }

  /** Two lists that start with the same and go on with an element that isn't
      below `x` have the same elements below it. */
  lemma {:induction false} BelowStart<T>(leq: (T, T) -> bool, x: T, low: seq<T>, rest: seq<T>)
    requires forall i :: 0 <= i < |low| ==> !leq(x, low[i])
    requires rest == [] || leq(x, rest[0])
    ensures Below(leq, x, low + rest) == low
  {
    if low == [] {
      assert low + rest == rest;
    } else {
      assert (low + rest)[1..] == low[1..] + rest;
      BelowStart(leq, x, low[1..], rest);
    }
  }

  lemma BelowFirst<T>(leq: (T, T) -> bool, x: T, y: T, rest: seq<T>)
    ensures Below(leq, x, [y] + rest) == if leq(x, y) then [] else [y] + Below(leq, x, rest)
  {
    assert ([y] + rest)[1..] == rest;
  }

  lemma InsertFirst<T>(leq: (T, T) -> bool, x: T, y: T, rest: seq<T>)
    ensures Insert(leq, x, [y] + rest) == if leq(x, y) then [x] + ([y] + rest) else [y] + Insert(leq, x, rest)
  {
    assert ([y] + rest)[1..] == rest;
  }

  lemma {:induction false} BelowInsert<T(!new)>(leq: (T, T) -> bool, x: T, y: T, s: seq<T>)
    requires TotalPreorder(leq) && Sorted(leq, s)
    ensures Below(leq, x, Insert(leq, y, s)) ==
            if leq(x, y) then Below(leq, x, s) else Insert(leq, y, Below(leq, x, s))
  {
    if s != [] {
      var first, rest := s[0], s[1..];
      assert s == [first] + rest;
      BelowInsert(leq, x, y, rest);
      hide Below, Insert;
      InsertFirst(leq, y, first, rest);
      BelowFirst(leq, x, first, rest);
      if leq(y, first) {
        BelowFirst(leq, x, y, s);
        InsertFirst(leq, y, first, Below(leq, x, rest));
        InsertNone(leq, y);
      } else {
        BelowFirst(leq, x, first, Insert(leq, y, rest));
        InsertFirst(leq, y, first, Below(leq, x, rest));
      }
    }
  }

  lemma InsertNone<T>(leq: (T, T) -> bool, x: T)
    ensures Insert(leq, x, []) == [x]
  {
  }

  /** What is below a rank is sorted on its own. */
  lemma {:induction false} BelowSorted<T(!new)>(leq: (T, T) -> bool, x: T, s: seq<T>)
    requires TotalPreorder(leq)
    ensures Below(leq, x, Sort(leq, s)) == Sort(leq, Retain(y => !leq(x, y), s))
  {
    if s != [] {
      BelowSorted(leq, x, s[1..]);
      SortSorts(leq, s[1..]);
      BelowInsert(leq, x, s[0], Sort(leq, s[1..]));
    }
  }

  lemma {:induction false} BelowSameRank<T(!new)>(leq: (T, T) -> bool, v: T, w: T, s: seq<T>)
    requires TotalPreorder(leq) && SameRank(leq, v, w)
    ensures Below(leq, v, s) == Below(leq, w, s)
  {
    if s != [] {
      BelowSameRank(leq, v, w, s[1..]);
      assert leq(v, s[0]) <==> leq(w, s[0]);
    }
  }

  // ----- Another order -------------------------------------------------------

  lemma SortOfTwo<T>(leq: (T, T) -> bool, v: T, w: T, rest: seq<T>)
    ensures Sort(leq, [v, w] + rest) == Insert(leq, v, Insert(leq, w, Sort(leq, rest)))
  {
    hide Insert;
    assert ([v, w] + rest)[1..] == [w] + rest && ([w] + rest)[1..] == rest;
  }

  /** Two of one rank in front are left in their order, above what is below them. */
  lemma TwoInFront<T(!new)>(leq: (T, T) -> bool, v: T, w: T, rest: seq<T>)
    requires TotalPreorder(leq) && SameRank(leq, v, w)
    ensures var s := Sort(leq, rest); var low := Below(leq, v, s);
            Sort(leq, [v, w] + rest) == low + ([v, w] + s[|low|..])
  {
    var s := Sort(leq, rest);
    SortOfTwo(leq, v, w, rest);
    hide Insert, Sort, Below;
    BelowSameRank(leq, v, w, s);
    var low := Below(leq, w, s);
    InsertAt(leq, w, s);
    var more := [w] + s[|low|..];
    assert Insert(leq, w, s) == low + more;
    BelowStart(leq, v, low, more);
    InsertAt(leq, v, low + more);
    assert (low + more)[|low|..] == more;
    assert [v] + more == [v, w] + s[|low|..];
  }

  /** What stands below a rank is deduplicated on its own. */
  lemma {:induction false} DedupAbove<T>(same: (T, T) -> bool, low: seq<T>, rest: seq<T>)
    requires forall i :: 0 <= i < |low| ==> rest != [] && !same(low[i], rest[0])
    ensures Dedup(same, low + rest) == Dedup(same, low) + Dedup(same, rest)
    decreases |low|
  {
    var s := low + rest;
    if low == [] {
      assert s == rest;
    } else if |low| == 1 {
      assert s[1..] == rest;
    } else if same(low[0], low[1]) {
      var fewer := [low[0]] + low[2..];
      assert [s[0]] + s[2..] == fewer + rest;
      DedupAbove(same, fewer, rest);
    } else {
      assert s[1..] == low[1..] + rest;
      DedupAbove(same, low[1..], rest);
    }
  }

  /** With two of one rank in front, the first of them is the first that is left of
      its rank. */
  lemma FirstInFront<T(!new)>(leq: (T, T) -> bool, same: (T, T) -> bool, n: nat, v: T, w: T, rest: seq<T>)
    requires TotalPreorder(leq) && Finer(leq, same) && SameRank(leq, v, w)
    ensures var i := |Dedup(same, Below(leq, v, Sort(leq, rest)))|;
            i < n ==> i < |Left(leq, same, n, [v, w] + rest)| && Left(leq, same, n, [v, w] + rest)[i] == v
  {
    hide Sort, Dedup;
    var s := Sort(leq, rest);
    var low := Below(leq, v, s);
    var more := [v, w] + s[|low|..];
    TwoInFront(leq, v, w, rest);
    DedupAbove(same, low, more);
    DedupStarts(same, more);
  }

  /** Fewer are left below the rank of one that is left than `n`. */
  lemma RoomBelow<T(!new)>(leq: (T, T) -> bool, same: (T, T) -> bool, n: nat, s: seq<T>, k: T, v: T)
    requires TotalPreorder(leq) && Finer(leq, same)
    requires k in Left(leq, same, n, s) && SameRank(leq, k, v)
    ensures |Dedup(same, Below(leq, v, Sort(leq, s)))| < n
  {
    hide Sort, Dedup;
    var all := Sort(leq, s);
    var low := Below(leq, v, all);
    var rest := all[|low|..];
    assert all == low + rest;
    DedupWithin(same, all);
    DedupWithin(same, low);
    assert k in Dedup(same, all) && k in all && leq(v, k);
    assert k !in low;
    assert rest != [];
    DedupAbove(same, low, rest);
    var left := Dedup(same, all);
    var t :| 0 <= t < n && t < |left| && left[t] == k;
    assert t < |Dedup(same, low)| ==> k in Dedup(same, low);
  }

  /** A list without two of its elements. */
  function Without<T>(s: seq<T>, i: nat, j: nat): seq<T>
    requires i < j < |s|
  {
    s[..i] + s[i + 1..j] + s[j + 1..]
  }

  lemma WithoutIs<T>(s: seq<T>, i: nat, j: nat)
    requires i < j < |s|
    ensures multiset([s[i], s[j]] + Without(s, i, j)) == multiset(s)
  {
    assert s == s[..i] + [s[i]] + s[i + 1..j] + [s[j]] + s[j + 1..];
  }

  lemma RetainSkips<T>(keep: T -> bool, s: seq<T>, i: nat)
    requires i < |s| && !keep(s[i])
    ensures Retain(keep, s[..i] + s[i + 1..]) == Retain(keep, s)
  {
    assert s == s[..i] + s[i..];
    assert Retain(keep, s[i..]) == Retain(keep, s[i + 1..]) by {
      assert s[i..][1..] == s[i + 1..];
    }
    hide Retain;
    RetainAppend(keep, s[..i], s[i + 1..]);
    RetainAppend(keep, s[..i], s[i..]);
  }

  lemma WithoutRetained<T>(keep: T -> bool, s: seq<T>, i: nat, j: nat)
    requires i < j < |s| && !keep(s[i]) && !keep(s[j])
    ensures Retain(keep, Without(s, i, j)) == Retain(keep, s)
  {
    hide Retain;
    var one := s[..j] + s[j + 1..];
    RetainSkips(keep, s, j);
    RetainSkips(keep, one, i);
    assert one[..i] + one[i + 1..] == Without(s, i, j) by {
      assert one[..i] == s[..i];
      assert one[i + 1..] == s[i + 1..j] + s[j + 1..];
    }
  }

  /** Of two elements of the rank of one that is left, the one that comes first in the
      list decides: two orders of the list leave the one or the other at the same
      place. */
  lemma OrderDecides<T(!new)>(leq: (T, T) -> bool, same: (T, T) -> bool, n: nat, s: seq<T>, k: T, i: nat, j: nat)
    returns (a: seq<T>, b: seq<T>, at: nat)
    requires TotalPreorder(leq) && Finer(leq, same) && i < j < |s|
    requires k in Left(leq, same, n, s) && SameRank(leq, k, s[i]) && SameRank(leq, k, s[j])
    ensures multiset(a) == multiset(b) == multiset(s)
    ensures at < |Left(leq, same, n, a)| && Left(leq, same, n, a)[at] == s[i]
    ensures at < |Left(leq, same, n, b)| && Left(leq, same, n, b)[at] == s[j]
  {
    hide Sort, Dedup, Left, Retain, Without;
    var v, w, rest := s[i], s[j], Without(s, i, j);
    a, b := [v, w] + rest, [w, v] + rest;
    WithoutIs(s, i, j);
    assert multiset(b) == multiset(a);
    assert leq(v, v) && SameRank(leq, v, w) && SameRank(leq, w, v);
    WithoutRetained(y => !leq(v, y), s, i, j);
    BelowSorted(leq, v, s);
    BelowSorted(leq, v, rest);
    at := |Dedup(same, Below(leq, v, Sort(leq, rest)))|;
    RoomBelow(leq, same, n, s, k, v);
    FirstInFront(leq, same, n, v, w, rest);
    FirstInFront(leq, same, n, w, v, rest);
    BelowSameRank(leq, v, w, Sort(leq, rest));
  }

  // ----- Seen through a function ---------------------------------------------

  /** Two of the rank of one that is left look the same. */
  ghost predicate Alike<T(!new), U>(leq: (T, T) -> bool, look: T -> U, left: seq<T>, all: multiset<T>) {
    forall k, x, y :: k in left && x in all && y in all && SameRank(leq, k, x) && SameRank(leq, k, y) ==>
      look(x) == look(y)
  }

  ghost predicate LookSame<T, U>(look: T -> U, a: seq<T>, b: seq<T>) {
    |a| == |b| && forall i :: 0 <= i < |a| ==> look(a[i]) == look(b[i])
  }

  lemma {:induction false} LeftWithin<T(!new)>(leq: (T, T) -> bool, same: (T, T) -> bool, n: nat, s: seq<T>)
    ensures forall x :: x in Left(leq, same, n, s) ==> x in multiset(s)
  {
    hide Sort, Dedup;
    SortKeeps(leq, s);
    DedupWithin(same, Sort(leq, s));
    forall x | x in Left(leq, same, n, s) ensures x in multiset(s) {
      assert x in Dedup(same, Sort(leq, s));
      assert x in multiset(Sort(leq, s));
    }
  }

  lemma AlikeStays<T(!new), U>(leq: (T, T) -> bool, same: (T, T) -> bool, n: nat, look: T -> U, a: seq<T>, b: seq<T>)
    requires TotalPreorder(leq) && multiset(a) == multiset(b)
    requires RanksAgree(leq, Left(leq, same, n, a), Left(leq, same, n, b))
    requires Alike(leq, look, Left(leq, same, n, a), multiset(a))
    ensures LookSame(look, Left(leq, same, n, a), Left(leq, same, n, b))
  {
    LeftWithin(leq, same, n, a);
    LeftWithin(leq, same, n, b);
    hide Left;
    var x, y := Left(leq, same, n, a), Left(leq, same, n, b);
    forall i | 0 <= i < |x| ensures look(x[i]) == look(y[i]) {
      assert x[i] in x && y[i] in y;
      assert SameRank(leq, x[i], x[i]) && SameRank(leq, x[i], y[i]);
    }
  }

  lemma UnlikeChanges<T(!new), U>(leq: (T, T) -> bool, same: (T, T) -> bool, n: nat, look: T -> U, s: seq<T>)
    returns (a: seq<T>, b: seq<T>)
    requires TotalPreorder(leq) && Finer(leq, same)
    requires !Alike(leq, look, Left(leq, same, n, s), multiset(s))
    ensures multiset(a) == multiset(b) == multiset(s)
    ensures !LookSame(look, Left(leq, same, n, a), Left(leq, same, n, b))
  {
    hide Left, TotalPreorder, Finer;
    var k, x, y :| k in Left(leq, same, n, s) && x in multiset(s) && y in multiset(s)
                   && SameRank(leq, k, x) && SameRank(leq, k, y) && look(x) != look(y);
    var i :| 0 <= i < |s| && s[i] == x;
    var j :| 0 <= j < |s| && s[j] == y;
    var at;
    if i < j {
      a, b, at := OrderDecides(leq, same, n, s, k, i, j);
    } else {
      a, b, at := OrderDecides(leq, same, n, s, k, j, i);
    }
  }
}
