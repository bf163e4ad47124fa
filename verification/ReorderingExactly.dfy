/** Exactly when the order of a list doesn't matter to how the elements look that
    are left after sorting and removing neighbours that are the same, if two of one
    rank needn't be the same. */
module ReorderingExactly {
  import opened Sorting
  import opened Reordering

  /** `fine` orders the elements of each rank of `leq`, and has those that are the
      same in one rank. */
  ghost predicate Refines<T(!new)>(leq: (T, T) -> bool, fine: (T, T) -> bool, same: (T, T) -> bool) {
    && TotalPreorder(leq) && TotalPreorder(fine)
    && (forall x, y :: fine(x, y) ==> leq(x, y))
    && (forall x, y :: same(x, y) <==> SameRank(fine, x, y))
  }

  /** The elements that are left when those that are the same stand together: as few
      as in any order. */
  function First<T>(fine: (T, T) -> bool, same: (T, T) -> bool, n: nat, s: seq<T>): seq<T> {
    Left(fine, same, n, s)
  }

  /** Two that are the same, and another of their rank: how many are left depends on
      whether it stands between them. */
  ghost predicate Clash<T(!new)>(leq: (T, T) -> bool, same: (T, T) -> bool, all: multiset<T>, x: T, y: T, w: T) {
    multiset{x, y} <= all && w in all && same(x, y) && !same(x, w) && SameRank(leq, x, w)
  }

  ghost predicate Reached<T(!new)>(leq: (T, T) -> bool, first: seq<T>, x: T) {
    exists k :: k in first && SameRank(leq, k, x)
  }

  /** There is no room after `first`, and from the rank of `x` on all of it look the
      same. */
  ghost predicate FullOf<T(!new), U>(leq: (T, T) -> bool, n: nat, look: T -> U, first: seq<T>, x: T) {
    |first| == n && forall v :: v in first && leq(x, v) ==> look(v) == look(x)
  }

  /** Those of one rank look the same, and where how many are left depends on the
      order, it doesn't show. */
  ghost predicate Steady<T(!new), U>(leq: (T, T) -> bool, same: (T, T) -> bool, n: nat, look: T -> U,
                                     first: seq<T>, all: multiset<T>)
  {
    && Alike(leq, look, first, all)
    && forall x, y, w :: Clash(leq, same, all, x, y, w) && Reached(leq, first, x) ==> FullOf(leq, n, look, first, x)
  }

  /** All orders of a list look the same. */
  ghost predicate AnyOrder<T(!new), U>(leq: (T, T) -> bool, same: (T, T) -> bool, n: nat, look: T -> U, s: seq<T>) {
    forall a, b :: multiset(a) == multiset(b) == multiset(s) ==>
      LookSame(look, Left(leq, same, n, a), Left(leq, same, n, b))
  }

  // ----- Removing those that are the same ------------------------------------

  lemma {:induction false} DedupBySame<T(!new)>(same: (T, T) -> bool, other: (T, T) -> bool, s: seq<T>)
    requires forall x, y :: same(x, y) <==> other(x, y)
    ensures Dedup(same, s) == Dedup(other, s)
    decreases |s|
  {
    if |s| > 1 {
      if same(s[0], s[1]) {
        DedupBySame(same, other, [s[0]] + s[2..]);
      } else {
        DedupBySame(same, other, s[1..]);
      }
    }
  }

  lemma {:induction false} DedupFewer<T>(same: (T, T) -> bool, s: seq<T>)
    ensures multiset(Dedup(same, s)) <= multiset(s)
    decreases |s|
  {
    if |s| > 1 {
      if same(s[0], s[1]) {
        DedupFewer(same, [s[0]] + s[2..]);
        WithoutSecond(s);
      } else {
        DedupFewer(same, s[1..]);
        assert s == [s[0]] + s[1..];
      }
    }
  }

  /** Each element has one that is the same among those that are left. */
  lemma StillThere<T(!new)>(leq: (T, T) -> bool, fine: (T, T) -> bool, same: (T, T) -> bool, s: seq<T>, x: T)
    returns (i: nat)
    requires Refines(leq, fine, same) && x in s
    ensures i < |Dedup(same, s)| && same(Dedup(same, s)[i], x)
  {
    hide Dedup;
    DedupBySame(same, Same(fine), s);
    DedupKeepsRanks(fine, s, x);
    var d :| d in Dedup(Same(fine), s) && SameRank(fine, d, x);
    i :| 0 <= i < |Dedup(same, s)| && Dedup(same, s)[i] == d;
  }

  // ----- Counting ------------------------------------------------------------

  ghost predicate Different<T(!new)>(same: (T, T) -> bool, s: seq<T>) {
    forall i, j :: 0 <= i < j < |s| ==> !same(s[i], s[j])
  }

  /** `b[i]` is the same as an element of `a`. */
  ghost predicate Met<T(!new)>(same: (T, T) -> bool, a: seq<T>, x: T) {
    exists j :: 0 <= j < |a| && same(a[j], x)
  }

  /** Different elements that are each met in `a` are no more than those of `a`. */
  lemma {:induction false} NoMore<T(!new)>(fine: (T, T) -> bool, same: (T, T) -> bool, a: seq<T>, b: seq<T>)
    requires TotalPreorder(fine) && forall x, y :: same(x, y) <==> SameRank(fine, x, y)
    requires Different(same, b) && forall i :: 0 <= i < |b| ==> Met(same, a, b[i])
    ensures |b| <= |a|
    decreases |b|
  {
    if b != [] {
      var n := |b| - 1;
      assert Met(same, a, b[n]);
      var j :| 0 <= j < |a| && same(a[j], b[n]);
      var others := a[..j] + a[j + 1..];
      forall i | 0 <= i < |b[..n]| ensures Met(same, others, b[..n][i]) {
        assert Met(same, a, b[i]) && !same(b[i], b[n]);
        var k :| 0 <= k < |a| && same(a[k], b[i]);
        assert k != j;
        assert others[if k < j then k else k - 1] == a[k];
      }
      NoMore(fine, same, others, b[..n]);
    }
  }

  // ----- The fewest ----------------------------------------------------------

  lemma GroupedIsSorted<T(!new)>(leq: (T, T) -> bool, fine: (T, T) -> bool, same: (T, T) -> bool, s: seq<T>)
    requires Refines(leq, fine, same)
    ensures Sorted(leq, Sort(fine, s)) && Sort(leq, Sort(fine, s)) == Sort(fine, s)
    ensures multiset(Sort(fine, s)) == multiset(s)
  {
    hide Sort;
    SortSorts(fine, s);
    SortKeeps(fine, s);
    SortOfSorted(leq, Sort(fine, s));
  }

  /** Those left of the grouped list ascend, so that no two are the same. */
  lemma GroupedAscends<T(!new)>(leq: (T, T) -> bool, fine: (T, T) -> bool, same: (T, T) -> bool, s: seq<T>)
    requires Refines(leq, fine, same)
    ensures Sorted(leq, Dedup(same, Sort(fine, s))) && Different(same, Dedup(same, Sort(fine, s)))
  {
    hide Sort, Dedup;
    SortSorts(fine, s);
    DedupBySame(same, Same(fine), Sort(fine, s));
    DedupOfSorted(fine, Sort(fine, s));
  }

  lemma LeftIsSorted<T(!new)>(leq: (T, T) -> bool, same: (T, T) -> bool, s: seq<T>)
    requires TotalPreorder(leq)
    ensures Sorted(leq, Dedup(same, Sort(leq, s)))
  {
    hide Sort, Dedup;
    SortSorts(leq, s);
    DedupStaysSorted(leq, same, Sort(leq, s));
  }

  /** Of two lists that are left of the same elements, one sorted finely, the other
      not: an element of one is met in the other. */
  lemma MetInOther<T(!new)>(leq: (T, T) -> bool, fine: (T, T) -> bool, same: (T, T) -> bool,
                            some: (T, T) -> bool, other: (T, T) -> bool, a: seq<T>, b: seq<T>, i: nat)
    returns (j: nat)
    requires Refines(leq, fine, same) && multiset(a) == multiset(b)
    requires i < |Dedup(same, Sort(some, a))|
    ensures j < |Dedup(same, Sort(other, b))|
    ensures same(Dedup(same, Sort(other, b))[j], Dedup(same, Sort(some, a))[i])
  {
    hide Sort, Dedup, TotalPreorder;
    var x := Dedup(same, Sort(some, a))[i];
    DedupWithin(same, Sort(some, a));
    SortKeeps(some, a);
    SortKeeps(other, b);
    assert x in Sort(some, a) && x in multiset(Sort(some, a));
    assert x in multiset(Sort(other, b)) && x in Sort(other, b);
    j := StillThere(leq, fine, same, Sort(other, b), x);
  }

  /** What is left of another order, and of the grouped list: sorted, and each
      element of one is met in the other. */
  ghost predicate Apart<T(!new)>(leq: (T, T) -> bool, fine: (T, T) -> bool, same: (T, T) -> bool,
                                 few: seq<T>, many: seq<T>)
  {
    && Refines(leq, fine, same) && Sorted(leq, few) && Sorted(leq, many) && Different(same, few)
    && (forall i :: 0 <= i < |few| ==> Met(same, many, few[i]))
    && (forall i :: 0 <= i < |many| ==> Met(same, few, many[i]))
  }

  lemma LeftAreApart<T(!new)>(leq: (T, T) -> bool, fine: (T, T) -> bool, same: (T, T) -> bool, s: seq<T>, b: seq<T>)
    requires Refines(leq, fine, same) && multiset(b) == multiset(s)
    ensures Apart(leq, fine, same, Dedup(same, Sort(fine, s)), Dedup(same, Sort(leq, b)))
  {
    GroupedAscends(leq, fine, same, s);
    LeftIsSorted(leq, same, b);
    hide Sort, Dedup, Sorted, Different, Refines;
    var few, many := Dedup(same, Sort(fine, s)), Dedup(same, Sort(leq, b));
    forall i | 0 <= i < |few| ensures Met(same, many, few[i]) {
      var j := MetInOther(leq, fine, same, fine, leq, s, b, i);
    }
    forall i | 0 <= i < |many| ensures Met(same, few, many[i]) {
      var j := MetInOther(leq, fine, same, leq, fine, b, s, i);
    }
  }

  lemma SameIsOneRank<T(!new)>(leq: (T, T) -> bool, fine: (T, T) -> bool, same: (T, T) -> bool, x: T, y: T)
    requires Refines(leq, fine, same) && same(x, y)
    ensures leq(x, y) && leq(y, x) && same(y, x)
  {
  }

  lemma RefinesOrders<T(!new)>(leq: (T, T) -> bool, fine: (T, T) -> bool, same: (T, T) -> bool)
    requires Refines(leq, fine, same)
    ensures TotalPreorder(leq) && Finer(leq, same)
  {
  }

  lemma Through<T(!new)>(leq: (T, T) -> bool, x: T, y: T, z: T)
    requires TotalPreorder(leq)
    ensures leq(x, y) && leq(y, z) ==> leq(x, z)
  {
  }

  lemma AtOrBefore<T(!new)>(leq: (T, T) -> bool, s: seq<T>, i: nat, j: nat)
    requires TotalPreorder(leq) && Sorted(leq, s) && i < |s| && j < |s|
    ensures i <= j ==> leq(s[i], s[j])
  {
    assert leq(s[i], s[i]);
  }

  lemma DifferentStart<T(!new)>(same: (T, T) -> bool, s: seq<T>, n: nat)
    requires Different(same, s) && n <= |s|
    ensures Different(same, s[..n])
  {
  }

  /** An element of `a` that is below `b[i]` is met before it. */
  lemma MetBefore<T(!new)>(leq: (T, T) -> bool, fine: (T, T) -> bool, same: (T, T) -> bool, b: seq<T>, i: nat, x: T)
    requires Refines(leq, fine, same) && Sorted(leq, b) && i < |b| && Met(same, b, x) && !leq(b[i], x)
    ensures Met(same, b[..i], x)
  {
    RefinesOrders(leq, fine, same);
    hide TotalPreorder, Refines, Sorted;
    var j :| 0 <= j < |b| && same(b[j], x);
    SameIsOneRank(leq, fine, same, b[j], x);
    AtOrBefore(leq, b, i, j);
    Through(leq, b[i], b[j], x);
    assert j < i;
    assert b[..i][j] == b[j];
  }

  /** No element of another order stands above that of the grouped one. */
  lemma NotAbove<T(!new)>(leq: (T, T) -> bool, fine: (T, T) -> bool, same: (T, T) -> bool,
                          few: seq<T>, many: seq<T>, i: nat)
    requires Apart(leq, fine, same, few, many) && i < |few| && i < |many|
    ensures leq(many[i], few[i])
  {
    RefinesOrders(leq, fine, same);
    hide TotalPreorder, Sorted, Met, Different;
    if !leq(many[i], few[i]) {
      var start := few[..i + 1];
      DifferentStart(same, few, i + 1);
      forall k | 0 <= k < |start| ensures Met(same, many[..i], start[k]) {
        AtOrBefore(leq, few, k, i);
        Through(leq, many[i], few[k], few[i]);
        MetBefore(leq, fine, same, many, i, few[k]);
      }
      NoMore(fine, same, many[..i], start);
    }
  }

  /** If it stands below, two that are left up to there are the same. */
  lemma BelowRepeats<T(!new)>(leq: (T, T) -> bool, fine: (T, T) -> bool, same: (T, T) -> bool,
                              few: seq<T>, many: seq<T>, i: nat)
    requires Apart(leq, fine, same, few, many) && i < |few| && i < |many| && !leq(few[i], many[i])
    ensures !Different(same, many[..i + 1])
  {
    RefinesOrders(leq, fine, same);
    hide TotalPreorder, Sorted, Met, Different;
    var start := many[..i + 1];
    if Different(same, start) {
      forall k | 0 <= k < |start| ensures Met(same, few[..i], start[k]) {
        AtOrBefore(leq, many, k, i);
        Through(leq, few[i], many[k], many[i]);
        MetBefore(leq, fine, same, few, i, many[k]);
      }
      NoMore(fine, same, few[..i], start);
    }
  }

  // ----- Clashes -------------------------------------------------------------

  lemma {:induction false} TwoOf<T(!new)>(s: seq<T>, i: nat, j: nat)
    requires i < j < |s|
    ensures multiset{s[i], s[j]} <= multiset(s)
  {
    assert s == s[..i] + [s[i]] + s[i + 1..j] + [s[j]] + s[j + 1..];
  }

  /** Two that are left and the same have another of their rank between them. */
  lemma RepeatClashes<T(!new)>(leq: (T, T) -> bool, fine: (T, T) -> bool, same: (T, T) -> bool, b: seq<T>,
                               i: nat, j: nat)
    requires Refines(leq, fine, same) && i < j < |Dedup(same, Sort(leq, b))|
    requires var many := Dedup(same, Sort(leq, b)); same(many[i], many[j])
    ensures var many := Dedup(same, Sort(leq, b)); Clash(leq, same, multiset(b), many[i], many[j], many[i + 1])
  {
    RefinesOrders(leq, fine, same);
    LeftIsSorted(leq, same, b);
    hide Sort, Dedup, Refines;
    var sorted := Sort(leq, b);
    var many := Dedup(same, sorted);
    DedupLeavesNone(same, sorted);
    DedupFewer(same, sorted);
    SortKeeps(leq, b);
    TwoOf(many, i, j);
    assert !same(many[i], many[i + 1]);
    assert many[i + 1] in many && many[i + 1] in multiset(many);
    SameIsOneRank(leq, fine, same, many[i], many[j]);
    AtOrBefore(leq, many, i, i + 1);
    AtOrBefore(leq, many, i + 1, j);
    Through(leq, many[i + 1], many[j], many[i]);
  }

  // ----- When all orders look the same ---------------------------------------

  /** What is met before an element of the first that are left is one of them. */
  lemma MetIsReached<T(!new)>(leq: (T, T) -> bool, fine: (T, T) -> bool, same: (T, T) -> bool, few: seq<T>,
                              n: nat, i: nat, x: T)
    returns (v: T)
    requires Refines(leq, fine, same) && Sorted(leq, few) && i < |few| && i < n
    requires Met(same, few, x) && !leq(few[i], x)
    ensures v in Truncate(few, n) && SameRank(leq, v, x) && Reached(leq, Truncate(few, n), x)
  {
    MetBefore(leq, fine, same, few, i, x);
    hide Sorted, Refines;
    var j :| 0 <= j < i && same(few[..i][j], x);
    v := few[j];
    SameIsOneRank(leq, fine, same, v, x);
    assert Truncate(few, n)[j] == v;
  }

  /** Those that are left of another order look as the fewest do, place by place. */
  lemma PlaceLooksSame<T(!new), U>(leq: (T, T) -> bool, fine: (T, T) -> bool, same: (T, T) -> bool, n: nat,
                                   look: T -> U, s: seq<T>, b: seq<T>, i: nat)
    requires Refines(leq, fine, same) && multiset(b) == multiset(s)
    requires Steady(leq, same, n, look, First(fine, same, n, s), multiset(s))
    requires i < n && i < |Dedup(same, Sort(fine, s))| && i < |Dedup(same, Sort(leq, b))|
    ensures look(Dedup(same, Sort(leq, b))[i]) == look(Dedup(same, Sort(fine, s))[i])
  {
    hide Sort, Dedup, TotalPreorder, Sorted, Different, Met, Reached, Refines, Alike;
    var few, many := Dedup(same, Sort(fine, s)), Dedup(same, Sort(leq, b));
    var first, all := First(fine, same, n, s), multiset(s);
    LeftAreApart(leq, fine, same, s, b);
    RefinesOrders(leq, fine, same);
    NotAbove(leq, fine, same, few, many, i);
    LeftElement(same, fine, s, i);
    LeftElement(same, leq, b, i);
    assert first[i] == few[i];
    if leq(few[i], many[i]) {
      AlikeFor(leq, look, first, all, few[i], many[i], few[i]);
    } else {
      BelowRepeats(leq, fine, same, few, many, i);
      var x, y, w := ClashUpTo(leq, fine, same, b, i);
      Through(leq, few[i], x, many[i]);
      Through(leq, x, many[i], few[i]);
      LeftIsMet(leq, fine, same, s, x);
      var u := MetIsReached(leq, fine, same, few, n, i, x);
      var v := MetIsReached(leq, fine, same, few, n, i, many[i]);
      Through(leq, x, many[i], v);
      FullWhereClash(leq, same, n, look, first, all, x, y, w);
      LeftWithin(fine, same, n, s);
      AlikeFor(leq, look, first, all, v, many[i], v);
    }
  }

  lemma AlikeFor<T(!new), U>(leq: (T, T) -> bool, look: T -> U, left: seq<T>, all: multiset<T>, k: T, x: T, y: T)
    requires TotalPreorder(leq) && Alike(leq, look, left, all)
    requires k in left && x in all && y in all && SameRank(leq, k, x) && (y == k || SameRank(leq, k, y))
    ensures look(x) == look(y)
  {
    assert leq(k, k);
  }

  lemma LeftElement<T(!new)>(same: (T, T) -> bool, some: (T, T) -> bool, s: seq<T>, i: nat)
    requires i < |Dedup(same, Sort(some, s))|
    ensures Dedup(same, Sort(some, s))[i] in multiset(s)
  {
    hide Sort, Dedup;
    SortKeeps(some, s);
    DedupFewer(same, Sort(some, s));
    assert Dedup(same, Sort(some, s))[i] in multiset(Dedup(same, Sort(some, s)));
  }

  lemma LeftIsMet<T(!new)>(leq: (T, T) -> bool, fine: (T, T) -> bool, same: (T, T) -> bool, s: seq<T>, x: T)
    requires Refines(leq, fine, same) && x in multiset(s)
    ensures Met(same, Dedup(same, Sort(fine, s)), x)
  {
    hide Sort, Dedup, Refines;
    SortKeeps(fine, s);
    assert x in multiset(Sort(fine, s)) && x in Sort(fine, s);
    var i := StillThere(leq, fine, same, Sort(fine, s), x);
  }

  /** Where two that are left up to place `i` are the same, they clash with another. */
  lemma ClashUpTo<T(!new)>(leq: (T, T) -> bool, fine: (T, T) -> bool, same: (T, T) -> bool, b: seq<T>, i: nat)
    returns (x: T, y: T, w: T)
    requires Refines(leq, fine, same) && i < |Dedup(same, Sort(leq, b))|
    requires !Different(same, Dedup(same, Sort(leq, b))[..i + 1])
    ensures Clash(leq, same, multiset(b), x, y, w) && x in multiset(b) && leq(x, Dedup(same, Sort(leq, b))[i])
  {
    RefinesOrders(leq, fine, same);
    LeftIsSorted(leq, same, b);
    hide Sort, Dedup, Refines, TotalPreorder, Clash;
    var many := Dedup(same, Sort(leq, b));
    var j, k :| 0 <= j < k < |many[..i + 1]| && same(many[..i + 1][j], many[..i + 1][k]);
    x, y, w := many[j], many[k], many[j + 1];
    RepeatClashes(leq, fine, same, b, j, k);
    AtOrBefore(leq, many, j, i);
    LeftElement(same, leq, b, j);
  }

  /** As many are left as of the grouped list. */
  lemma AsMany<T(!new), U>(leq: (T, T) -> bool, fine: (T, T) -> bool, same: (T, T) -> bool, n: nat,
                           look: T -> U, s: seq<T>, b: seq<T>)
    requires Refines(leq, fine, same) && multiset(b) == multiset(s)
    requires Steady(leq, same, n, look, First(fine, same, n, s), multiset(s))
    ensures |Left(leq, same, n, b)| == |First(fine, same, n, s)|
    ensures |Dedup(same, Sort(fine, s))| <= |Dedup(same, Sort(leq, b))|
  {
    hide Sort, Dedup, TotalPreorder, Sorted, Different, Met, Refines, Alike, Reached;
    var few, many := Dedup(same, Sort(fine, s)), Dedup(same, Sort(leq, b));
    LeftAreApart(leq, fine, same, s, b);
    FineIsEnough(leq, fine, same);
    NoMore(fine, same, many, few);
    if |few| < n && |few| < |many| {
      if Different(same, many) {
        NoMore(fine, same, few, many);
      }
      assert many[..|many| - 1 + 1] == many;
      var x, y, w := ClashUpTo(leq, fine, same, b, |many| - 1);
      LeftIsMet(leq, fine, same, s, x);
      AllReached(leq, fine, same, few, n, x);
      FullWhereClash(leq, same, n, look, First(fine, same, n, s), multiset(s), x, y, w);
    }
  }

  lemma FullWhereClash<T(!new), U>(leq: (T, T) -> bool, same: (T, T) -> bool, n: nat, look: T -> U,
                                   first: seq<T>, all: multiset<T>, x: T, y: T, w: T)
    requires Steady(leq, same, n, look, first, all) && Clash(leq, same, all, x, y, w) && Reached(leq, first, x)
    ensures |first| == n && forall v :: v in first && leq(x, v) ==> look(v) == look(x)
  {
    assert FullOf(leq, n, look, first, x);
  }

  lemma FineIsEnough<T(!new)>(leq: (T, T) -> bool, fine: (T, T) -> bool, same: (T, T) -> bool)
    requires Refines(leq, fine, same)
    ensures TotalPreorder(fine) && forall x, y :: same(x, y) <==> SameRank(fine, x, y)
  {
  }

  lemma AllReached<T(!new)>(leq: (T, T) -> bool, fine: (T, T) -> bool, same: (T, T) -> bool, few: seq<T>, n: nat, x: T)
    requires Refines(leq, fine, same) && |few| <= n && Met(same, few, x)
    ensures Reached(leq, Truncate(few, n), x)
  {
    hide Refines;
    var j :| 0 <= j < |few| && same(few[j], x);
    SameIsOneRank(leq, fine, same, few[j], x);
    assert few[j] in few;
  }

  /** Where there is room after those that are left, every rank is among the fewest. */
  lemma RoomMeansAll<T(!new)>(leq: (T, T) -> bool, fine: (T, T) -> bool, same: (T, T) -> bool, n: nat, s: seq<T>)
    requires Refines(leq, fine, same) && |Left(leq, same, n, s)| < n
    ensures |First(fine, same, n, s)| < n
    ensures forall x :: x in multiset(s) ==> Reached(leq, First(fine, same, n, s), x)
  {
    hide Sort, Dedup, TotalPreorder, Sorted, Different, Met, Refines, Reached;
    var few, many := Dedup(same, Sort(fine, s)), Dedup(same, Sort(leq, s));
    LeftAreApart(leq, fine, same, s, s);
    FineIsEnough(leq, fine, same);
    NoMore(fine, same, many, few);
    forall x | x in multiset(s) ensures Reached(leq, Truncate(few, n), x) {
      LeftIsMet(leq, fine, same, s, x);
      AllReached(leq, fine, same, few, n, x);
    }
  }

  lemma SteadyStays<T(!new), U>(leq: (T, T) -> bool, fine: (T, T) -> bool, same: (T, T) -> bool, n: nat,
                                look: T -> U, s: seq<T>, b: seq<T>)
    requires Refines(leq, fine, same) && multiset(b) == multiset(s)
    requires Steady(leq, same, n, look, First(fine, same, n, s), multiset(s))
    ensures LookSame(look, First(fine, same, n, s), Left(leq, same, n, b))
  {
    hide Sort, Dedup, Refines, Steady;
    AsMany(leq, fine, same, n, look, s, b);
    forall i | 0 <= i < |First(fine, same, n, s)|
      ensures look(First(fine, same, n, s)[i]) == look(Left(leq, same, n, b)[i])
    {
      PlaceLooksSame(leq, fine, same, n, look, s, b, i);
    }
  }

  // ----- Two orders of a clash -----------------------------------------------

  function Removed<T(==)>(s: seq<T>, x: T): seq<T> {
    if s == [] then [] else if s[0] == x then s[1..] else [s[0]] + Removed(s[1..], x)
  }

  lemma {:induction false} RemovedIs<T>(s: seq<T>, x: T)
    requires x in multiset(s)
    ensures multiset(Removed(s, x)) == multiset(s) - multiset{x}
  {
    assert s == [s[0]] + s[1..];
    if s[0] != x {
      RemovedIs(s[1..], x);
      assert multiset(s) == multiset{s[0]} + multiset(s[1..]);
    }
  }

  lemma {:induction false} RemovedRetained<T>(keep: T -> bool, s: seq<T>, x: T)
    requires !keep(x)
    ensures Retain(keep, Removed(s, x)) == Retain(keep, s)
  {
    if s != [] && s[0] != x {
      RemovedRetained(keep, s[1..], x);
      assert ([s[0]] + Removed(s[1..], x))[1..] == Removed(s[1..], x);
    }
  }

  /** Three of one rank in front are left in their order, above what is below them. */
  lemma ThreeInFront<T(!new)>(leq: (T, T) -> bool, x: T, y: T, w: T, rest: seq<T>)
    requires TotalPreorder(leq) && SameRank(leq, x, y) && SameRank(leq, x, w)
    ensures var s := Sort(leq, rest); var low := Below(leq, x, s);
            Sort(leq, [x, y, w] + rest) == low + ([x, y, w] + s[|low|..])
  {
    hide Sort, Insert, Below, TotalPreorder;
    var s := Sort(leq, rest);
    var low := Below(leq, x, s);
    SortNext(leq, x, [y, w] + rest);
    SameRankThrough(leq, x, y, w);
    TwoInFront(leq, y, w, rest);
    BelowSameRank(leq, x, y, s);
    var more := [y, w] + s[|low|..];
    ThreeTogether(x, y, w, rest);
    ThreeTogether(x, y, w, s[|low|..]);
    BelowStart(leq, x, low, more);
    InsertAt(leq, x, low + more);
    Between(low, x, more);
  }

  lemma ThreeTogether<T>(x: T, y: T, w: T, rest: seq<T>)
    ensures [x] + ([y, w] + rest) == [x, y, w] + rest
  {
  }

  lemma Between<T>(low: seq<T>, x: T, more: seq<T>)
    ensures (low + more)[|low|..] == more && low + [x] + more == low + ([x] + more)
  {
  }

  lemma SortNext<T>(leq: (T, T) -> bool, x: T, rest: seq<T>)
    ensures Sort(leq, [x] + rest) == Insert(leq, x, Sort(leq, rest))
  {
    hide Insert;
    assert ([x] + rest)[1..] == rest;
  }

  lemma SameRankThrough<T(!new)>(leq: (T, T) -> bool, x: T, y: T, w: T)
    requires TotalPreorder(leq) && SameRank(leq, x, y) && SameRank(leq, x, w)
    ensures SameRank(leq, y, w)
  {
  }

  /** Two that are the same in front of a list: what is left after them is the same. */
  lemma {:induction false} HeadsOfSame<T(!new)>(fine: (T, T) -> bool, same: (T, T) -> bool, x: T, y: T, rest: seq<T>)
    requires TotalPreorder(fine) && (forall a, b :: same(a, b) <==> SameRank(fine, a, b)) && same(x, y)
    ensures Dedup(same, [x] + rest) != [] && Dedup(same, [x] + rest)[0] == x
    ensures Dedup(same, [y] + rest) != [] && Dedup(same, [y] + rest)[0] == y
    ensures Dedup(same, [x] + rest)[1..] == Dedup(same, [y] + rest)[1..]
    decreases |rest|
  {
    if rest != [] {
      assert same(x, rest[0]) <==> same(y, rest[0]);
      assert [x] + ([x] + rest)[2..] == [x] + rest[1..] && [y] + ([y] + rest)[2..] == [y] + rest[1..];
      assert ([x] + rest)[1..] == rest && ([y] + rest)[1..] == rest;
      if same(x, rest[0]) {
        HeadsOfSame(fine, same, x, y, rest[1..]);
      } else {
        DedupHead(same, x, rest);
        DedupHead(same, y, rest);
      }
    }
  }

  lemma DedupHead<T>(same: (T, T) -> bool, x: T, rest: seq<T>)
    requires rest != [] && !same(x, rest[0])
    ensures Dedup(same, [x] + rest) == [x] + Dedup(same, rest)
  {
    assert ([x] + rest)[1..] == rest;
  }

  lemma DedupTwice<T>(same: (T, T) -> bool, x: T, y: T, rest: seq<T>)
    requires same(x, y)
    ensures Dedup(same, [x, y] + rest) == Dedup(same, [x] + rest)
  {
    assert [x] + ([x, y] + rest)[2..] == [x] + rest;
  }

  /** Between two that are the same, another leaves one more than before them. */
  lemma OneMoreLeft<T(!new)>(fine: (T, T) -> bool, same: (T, T) -> bool, x: T, y: T, w: T, rest: seq<T>)
    returns (after: seq<T>)
    requires TotalPreorder(fine) && (forall a, b :: same(a, b) <==> SameRank(fine, a, b))
    requires same(x, y) && !same(x, w)
    ensures Dedup(same, [w, x, y] + rest) == [w, x] + after
    ensures Dedup(same, [x, w, y] + rest) == [x, w, y] + after
  {
    NotSameEither(fine, same, x, y, w);
    HeadsOfSame(fine, same, x, y, rest);
    hide Dedup, TotalPreorder;
    after := Dedup(same, [y] + rest)[1..];
    FirstAndRest(x, after, Dedup(same, [x] + rest));
    FirstAndRest(y, after, Dedup(same, [y] + rest));
    OtherBefore(same, x, y, w, rest);
    OtherBetween(same, x, y, w, rest);
    Appended(w, x, y, after);
  }

  lemma Appended<T>(w: T, x: T, y: T, after: seq<T>)
    ensures [w] + ([x] + after) == [w, x] + after && [x, w] + ([y] + after) == [x, w, y] + after
  {
  }

  lemma NotSameEither<T(!new)>(fine: (T, T) -> bool, same: (T, T) -> bool, x: T, y: T, w: T)
    requires TotalPreorder(fine) && (forall a, b :: same(a, b) <==> SameRank(fine, a, b))
    requires same(x, y) && !same(x, w)
    ensures !same(w, x) && !same(w, y)
  {
  }

  lemma OtherBefore<T>(same: (T, T) -> bool, x: T, y: T, w: T, rest: seq<T>)
    requires same(x, y) && !same(w, x)
    ensures Dedup(same, [w, x, y] + rest) == [w] + Dedup(same, [x] + rest)
  {
    hide Dedup;
    ThreeTogether(w, x, y, rest);
    DedupHead(same, w, [x, y] + rest);
    DedupTwice(same, x, y, rest);
  }

  lemma OtherBetween<T>(same: (T, T) -> bool, x: T, y: T, w: T, rest: seq<T>)
    requires !same(x, w) && !same(w, y)
    ensures Dedup(same, [x, w, y] + rest) == [x, w] + Dedup(same, [y] + rest)
  {
    hide Dedup;
    ThreeTogether(x, w, y, rest);
    assert [w, y] + rest == [w] + ([y] + rest);
    DedupHead(same, w, [y] + rest);
    DedupHead(same, x, [w, y] + rest);
    assert [x] + ([w] + Dedup(same, [y] + rest)) == [x, w] + Dedup(same, [y] + rest);
  }

  /** Lists that differ by one more element look the same only if they are cut, and
      all that follow look as it does. */
  lemma {:induction false} Shifted<T, U>(look: T -> U, n: nat, low: seq<T>, x: T, y: T, w: T, after: seq<T>, i: nat)
    requires |low| < n && look(x) == look(y) == look(w)
    requires LookSame(look, Truncate(low + ([w, x] + after), n), Truncate(low + ([x, w, y] + after), n))
    ensures |Truncate(low + ([x, w, y] + after), n)| == n
    ensures |low| <= i < n ==> look(Truncate(low + ([x, w, y] + after), n)[i]) == look(x)
  {
    var a, b := low + ([w, x] + after), low + ([x, w, y] + after);
    assert |b| == |a| + 1;
    if |low| + 3 <= i < n {
      Shifted(look, n, low, x, y, w, after, i - 1);
      assert b[i] == after[i - |low| - 3] == a[i - 1];
      assert look(Truncate(a, n)[i - 1]) == look(Truncate(b, n)[i - 1]);
    }
  }

  lemma ShiftedTail<T, U>(look: T -> U, n: nat, low: seq<T>, x: T, y: T, w: T, after: seq<T>, first: seq<T>)
    requires |low| < n && look(x) == look(y) == look(w)
    requires LookSame(look, Truncate(low + ([w, x] + after), n), Truncate(low + ([x, w, y] + after), n))
    requires LookSame(look, first, Truncate(low + ([x, w, y] + after), n))
    ensures |first| == n && forall i :: |low| <= i < n ==> look(first[i]) == look(x)
  {
    hide Truncate;
    Shifted(look, n, low, x, y, w, after, 0);
    forall i | |low| <= i < n ensures look(first[i]) == look(x) {
      Shifted(look, n, low, x, y, w, after, i);
    }
  }

  /** What stands below a rank is left first. */
  lemma BelowIsLeftFirst<T(!new)>(leq: (T, T) -> bool, same: (T, T) -> bool, s: seq<T>, x: T)
    requires TotalPreorder(leq) && Finer(leq, same) && Sorted(leq, s)
    ensures var low := Dedup(same, Below(leq, x, s));
            |low| <= |Dedup(same, s)| && forall t :: 0 <= t < |low| ==> !leq(x, Dedup(same, s)[t])
  {
    hide Dedup, Sorted;
    var low := Below(leq, x, s);
    var rest := s[|low|..];
    assert s == low + rest;
    DedupWithin(same, low);
    if rest == [] {
      assert low == s;
    } else {
      DedupAbove(same, low, rest);
    }
    forall t | 0 <= t < |Dedup(same, low)| ensures !leq(x, Dedup(same, s)[t]) {
      assert Dedup(same, low)[t] in low;
      assert rest == [] ==> Dedup(same, s)[t] == Dedup(same, low)[t];
    }
  }

  /** A list without a clash's three elements. */
  function Others<T(==)>(s: seq<T>, x: T, y: T, w: T): seq<T> {
    Removed(Removed(Removed(s, x), y), w)
  }

  lemma OthersAre<T(!new)>(leq: (T, T) -> bool, fine: (T, T) -> bool, same: (T, T) -> bool, s: seq<T>,
                           x: T, y: T, w: T)
    requires Refines(leq, fine, same) && Clash(leq, same, multiset(s), x, y, w)
    ensures multiset([w, x, y] + Others(s, x, y, w)) == multiset(s)
    ensures multiset([x, w, y] + Others(s, x, y, w)) == multiset(s)
  {
    hide Removed, Refines;
    NotSame(leq, fine, same, x, y, w);
    ThreeIn(multiset(s), x, y, w);
    var one := Removed(s, x);
    var two := Removed(one, y);
    var rest := Others(s, x, y, w);
    RemovedIs(s, x);
    RemovedIs(one, y);
    RemovedIs(two, w);
    PutBack(s, x, one);
    PutBack(one, y, two);
    PutBack(two, w, rest);
    Together([x], one);
    Together([x], [y] + two);
    Together([y], two);
    Together([y], [w] + rest);
    InAnyOrder(x, y, w, rest);
  }

  lemma ThreeIn<T>(all: multiset<T>, x: T, y: T, w: T)
    requires multiset{x, y} <= all && w in all && w != x && w != y
    ensures x in all && y in all - multiset{x} && w in all - multiset{x} - multiset{y}
  {
    assert multiset{x, y}[x] >= 1 && multiset{x, y}[y] >= if x == y then 2 else 1;
  }

  lemma PutBack<T>(s: seq<T>, x: T, rest: seq<T>)
    requires x in multiset(s) && multiset(rest) == multiset(s) - multiset{x}
    ensures multiset([x] + rest) == multiset(s)
  {
    Together([x], rest);
  }

  lemma Together<T>(a: seq<T>, b: seq<T>)
    ensures multiset(a + b) == multiset(a) + multiset(b)
  {
  }

  lemma InAnyOrder<T>(x: T, y: T, w: T, rest: seq<T>)
    ensures multiset([w, x, y] + rest) == multiset([x] + ([y] + ([w] + rest))) == multiset([x, w, y] + rest)
  {
    assert [x] + ([y] + ([w] + rest)) == [x, y, w] + rest;
    Together([x, y, w], rest);
    Together([w, x, y], rest);
    Together([x, w, y], rest);
    ThreeElements(x, y, w);
    ThreeElements(w, x, y);
    ThreeElements(x, w, y);
    AnyThree(x, y, w);
  }

  lemma ThreeElements<T>(a: T, b: T, c: T)
    ensures multiset([a, b, c]) == multiset{a, b, c}
  {
  }

  lemma AnyThree<T>(x: T, y: T, w: T)
    ensures multiset{w, x, y} == multiset{x, y, w} == multiset{x, w, y}
  {
  }

  lemma NotSame<T(!new)>(leq: (T, T) -> bool, fine: (T, T) -> bool, same: (T, T) -> bool, x: T, y: T, w: T)
    requires Refines(leq, fine, same) && same(x, y) && !same(x, w)
    ensures w != x && w != y
  {
    assert fine(x, x);
  }

  lemma OthersBelow<T(!new)>(leq: (T, T) -> bool, s: seq<T>, x: T, y: T, w: T)
    requires TotalPreorder(leq) && SameRank(leq, x, y) && SameRank(leq, x, w)
    ensures Below(leq, x, Sort(leq, Others(s, x, y, w))) == Below(leq, x, Sort(leq, s))
  {
    hide Removed, Sort, Below, Retain;
    assert leq(x, x);
    var rest := Others(s, x, y, w);
    RemovedRetained(v => !leq(x, v), s, x);
    RemovedRetained(v => !leq(x, v), Removed(s, x), y);
    RemovedRetained(v => !leq(x, v), Removed(Removed(s, x), y), w);
    BelowSorted(leq, x, s);
    BelowSorted(leq, x, rest);
  }

  /** What is left when three of one rank stand in front. */
  lemma LeftInFront<T(!new)>(leq: (T, T) -> bool, same: (T, T) -> bool, a: seq<T>, rest: seq<T>, x: T)
    requires TotalPreorder(leq) && Finer(leq, same) && |a| == 3
    requires SameRank(leq, a[0], a[1]) && SameRank(leq, a[0], a[2]) && SameRank(leq, a[0], x)
    ensures var s := Sort(leq, rest); var low := Below(leq, x, s);
            Dedup(same, Sort(leq, a + rest)) == Dedup(same, low) + Dedup(same, a + s[|low|..])
  {
    hide Sort, Dedup, TotalPreorder;
    var s := Sort(leq, rest);
    var low := Below(leq, x, s);
    BelowSameRank(leq, a[0], x, s);
    assert a == [a[0], a[1], a[2]];
    ThreeInFront(leq, a[0], a[1], a[2], rest);
    DedupAbove(same, low, a + s[|low|..]);
  }

  /** Of a clash, two orders leave the same elements, but one has one more. */
  lemma TwoOrders<T(!new)>(leq: (T, T) -> bool, fine: (T, T) -> bool, same: (T, T) -> bool, s: seq<T>,
                           x: T, y: T, w: T)
    returns (a: seq<T>, b: seq<T>, after: seq<T>)
    requires Refines(leq, fine, same) && Clash(leq, same, multiset(s), x, y, w)
    ensures multiset(a) == multiset(b) == multiset(s)
    ensures var low := Dedup(same, Below(leq, x, Sort(leq, s)));
            && Dedup(same, Sort(leq, a)) == low + ([w, x] + after)
            && Dedup(same, Sort(leq, b)) == low + ([x, w, y] + after)
  {
    RefinesOrders(leq, fine, same);
    FineIsEnough(leq, fine, same);
    SameIsOneRank(leq, fine, same, x, y);
    assert SameRank(leq, x, w) && SameRank(leq, x, y) && leq(x, x);
    OthersAre(leq, fine, same, s, x, y, w);
    OthersBelow(leq, s, x, y, w);
    SameRankThrough(leq, x, w, y);
    hide Sort, Dedup, Others, Below, Refines, TotalPreorder;
    var rest := Others(s, x, y, w);
    a, b := [w, x, y] + rest, [x, w, y] + rest;
    var sorted := Sort(leq, rest);
    var low := Below(leq, x, sorted);
    LeftInFront(leq, same, [w, x, y], rest, x);
    LeftInFront(leq, same, [x, w, y], rest, x);
    after := OneMoreLeft(fine, same, x, y, w, sorted[|low|..]);
  }

  /** Where all orders look the same, a clash doesn't show. */
  lemma ClashDoesNotShow<T(!new), U>(leq: (T, T) -> bool, fine: (T, T) -> bool, same: (T, T) -> bool, n: nat,
                                     look: T -> U, s: seq<T>, x: T, y: T, w: T)
    requires Refines(leq, fine, same) && AnyOrder(leq, same, n, look, s)
    requires Alike(leq, look, First(fine, same, n, s), multiset(s))
    requires Clash(leq, same, multiset(s), x, y, w) && Reached(leq, First(fine, same, n, s), x)
    ensures FullOf(leq, n, look, First(fine, same, n, s), x)
  {
    var first, grouped := First(fine, same, n, s), Sort(fine, s);
    RefinesOrders(leq, fine, same);
    GroupedIsSorted(leq, fine, same, s);
    hide Sort, Dedup, Below, Refines, TotalPreorder, Finer, Sorted;
    var k :| k in first && SameRank(leq, k, x);
    assert first == Left(leq, same, n, grouped);
    RoomBelow(leq, same, n, grouped, k, x);
    var a, b, after := TwoOrders(leq, fine, same, grouped, x, y, w);
    ClashLooksAlike(leq, fine, same, look, first, multiset(s), x, y, w, k);
    var low := Dedup(same, Below(leq, x, grouped));
    assert LookSame(look, Left(leq, same, n, a), Left(leq, same, n, b));
    assert LookSame(look, Left(leq, same, n, grouped), Left(leq, same, n, b));
    ShiftedTail(look, n, low, x, y, w, after, first);
    BelowIsLeftFirst(leq, same, grouped, x);
    hide LookSame, Left, First;
    forall v | v in first && leq(x, v) ensures look(v) == look(x) {
      var i :| 0 <= i < |first| && first[i] == v;
      PlaceInLeft(leq, same, n, grouped, i);
    }
  }

  lemma PlaceInLeft<T>(leq: (T, T) -> bool, same: (T, T) -> bool, n: nat, s: seq<T>, i: nat)
    requires i < |Left(leq, same, n, s)|
    ensures i < n && i < |Dedup(same, Sort(leq, s))| && Left(leq, same, n, s)[i] == Dedup(same, Sort(leq, s))[i]
  {
    hide Sort, Dedup;
  }

  lemma ClashLooksAlike<T(!new), U>(leq: (T, T) -> bool, fine: (T, T) -> bool, same: (T, T) -> bool, look: T -> U,
                                    first: seq<T>, all: multiset<T>, x: T, y: T, w: T, k: T)
    requires Refines(leq, fine, same) && Alike(leq, look, first, all)
    requires Clash(leq, same, all, x, y, w) && k in first && SameRank(leq, k, x)
    ensures look(x) == look(y) == look(w)
  {
    RefinesOrders(leq, fine, same);
    SameIsOneRank(leq, fine, same, x, y);
    assert x in multiset{x, y} && y in multiset{x, y};
    SameRankFrom(leq, k, x, y);
    SameRankFrom(leq, k, x, w);
  }

  lemma SameRankFrom<T(!new)>(leq: (T, T) -> bool, k: T, x: T, y: T)
    requires TotalPreorder(leq) && SameRank(leq, k, x) && SameRank(leq, x, y)
    ensures SameRank(leq, k, y)
  {
  }

  lemma AnyOrderIsAlike<T(!new), U>(leq: (T, T) -> bool, fine: (T, T) -> bool, same: (T, T) -> bool, n: nat,
                                    look: T -> U, s: seq<T>)
    requires Refines(leq, fine, same) && AnyOrder(leq, same, n, look, s)
    ensures Alike(leq, look, First(fine, same, n, s), multiset(s))
  {
    RefinesOrders(leq, fine, same);
    GroupedIsSorted(leq, fine, same, s);
    hide Sort, Dedup, Refines, TotalPreorder, Finer, Alike, LookSame;
    var grouped := Sort(fine, s);
    assert First(fine, same, n, s) == Left(leq, same, n, grouped);
    if !Alike(leq, look, First(fine, same, n, s), multiset(s)) {
      var a, b := UnlikeChanges(leq, same, n, look, grouped);
    }
  }

  /** All orders of a list look the same exactly when those of one rank look the
      same, and how many are left of a rank shows in none. */
  lemma OrdersLookSame<T(!new), U>(leq: (T, T) -> bool, fine: (T, T) -> bool, same: (T, T) -> bool, n: nat,
                                   look: T -> U, s: seq<T>)
    requires Refines(leq, fine, same)
    ensures AnyOrder(leq, same, n, look, s) <==> Steady(leq, same, n, look, First(fine, same, n, s), multiset(s))
  {
    hide Refines, First, Left, Alike, Clash, Reached, FullOf;
    var first := First(fine, same, n, s);
    if Steady(leq, same, n, look, first, multiset(s)) {
      forall a, b | multiset(a) == multiset(b) == multiset(s)
        ensures LookSame(look, Left(leq, same, n, a), Left(leq, same, n, b))
      {
        SteadyStays(leq, fine, same, n, look, s, a);
        SteadyStays(leq, fine, same, n, look, s, b);
      }
    }
    if AnyOrder(leq, same, n, look, s) {
      AnyOrderIsAlike(leq, fine, same, n, look, s);
      forall x, y, w | Clash(leq, same, multiset(s), x, y, w) && Reached(leq, first, x)
        ensures FullOf(leq, n, look, first, x)
      {
        ClashDoesNotShow(leq, fine, same, n, look, s, x, y, w);
      }
    }
  }
}
