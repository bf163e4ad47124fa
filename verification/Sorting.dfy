/** The list operations of Rust's standard library that the sources use: a stable
    sort, `dedup`, `retain` and `truncate`. */
module Sorting {

  /** Any two are ordered, and the order is transitive; two may be of the same
      rank. */
  ghost predicate TotalPreorder<T(!new)>(leq: (T, T) -> bool) {
    && (forall a, b :: leq(a, b) || leq(b, a))
    && (forall a, b, c :: leq(a, b) && leq(b, c) ==> leq(a, c))
  }

  function SameRank<T>(leq: (T, T) -> bool, a: T, b: T): bool {
    leq(a, b) && leq(b, a)
  }

  /** Of the same rank, as `dedup_by` takes it. */
  function Same<T>(leq: (T, T) -> bool): (T, T) -> bool {
    (a, b) => SameRank(leq, a, b)
  }

  function Insert<T>(leq: (T, T) -> bool, x: T, s: seq<T>): (r: seq<T>)
    ensures |r| == |s| + 1
  {
    if s == [] then [x]
    else if leq(x, s[0]) then [x] + s
    else [s[0]] + Insert(leq, x, s[1..])
  }

  /** `sort_by`: elements of the same rank stay in their order. */
  function Sort<T>(leq: (T, T) -> bool, s: seq<T>): (r: seq<T>)
    ensures |r| == |s|
  {
    if s == [] then [] else Insert(leq, s[0], Sort(leq, s[1..]))
  }

  /** `dedup_by`: of neighbours that are the same the first stays. */
  function Dedup<T>(same: (T, T) -> bool, s: seq<T>): (r: seq<T>)
    ensures |r| <= |s|
    decreases |s|
  {
    if |s| <= 1 then s
    else if same(s[0], s[1]) then Dedup(same, [s[0]] + s[2..])
    else [s[0]] + Dedup(same, s[1..])
  }

  /** `retain`. */
  function Retain<T>(keep: T -> bool, s: seq<T>): (r: seq<T>)
    ensures |r| <= |s|
  {
    if s == [] then []
    else if keep(s[0]) then [s[0]] + Retain(keep, s[1..])
    else Retain(keep, s[1..])
  }

  /** `truncate`. */
  function Truncate<T>(s: seq<T>, n: nat): (r: seq<T>)
    ensures |r| <= n && r <= s
    ensures |s| <= n ==> r == s
  {
    if |s| <= n then s else s[..n]
  }

  // ----- Sorting -------------------------------------------------------------

  ghost predicate Sorted<T(!new)>(leq: (T, T) -> bool, s: seq<T>) {
    forall i, j :: 0 <= i < j < |s| ==> leq(s[i], s[j])
  }

  /** Sorted, and no two of the same rank. */
  ghost predicate Ascending<T(!new)>(leq: (T, T) -> bool, s: seq<T>) {
    forall i, j :: 0 <= i < j < |s| ==> leq(s[i], s[j]) && !leq(s[j], s[i])
  }

  lemma {:induction false} InsertKeeps<T>(leq: (T, T) -> bool, x: T, s: seq<T>)
    ensures multiset(Insert(leq, x, s)) == multiset{x} + multiset(s)
  {
    if s != [] {
      assert s == [s[0]] + s[1..];
      if !leq(x, s[0]) {
        InsertKeeps(leq, x, s[1..]);
      }
    }
  }

  /** Sorting only reorders. */
  lemma {:induction false} SortKeeps<T>(leq: (T, T) -> bool, s: seq<T>)
    ensures multiset(Sort(leq, s)) == multiset(s)
  {
    if s != [] {
      SortKeeps(leq, s[1..]);
      InsertKeeps(leq, s[0], Sort(leq, s[1..]));
      assert s == [s[0]] + s[1..];
    }
  }

  lemma {:induction false} InsertSorted<T(!new)>(leq: (T, T) -> bool, x: T, s: seq<T>)
    requires TotalPreorder(leq) && Sorted(leq, s)
    ensures Sorted(leq, Insert(leq, x, s))
  {
    if s == [] {
    } else if leq(x, s[0]) {
      forall j | 0 <= j < |s| ensures leq(x, s[j]) {
        assert j > 0 ==> leq(s[0], s[j]);
      }
    } else {
      var rest := Insert(leq, x, s[1..]);
      InsertSorted(leq, x, s[1..]);
      InsertKeeps(leq, x, s[1..]);
      forall j | 0 <= j < |rest| ensures leq(s[0], rest[j]) {
        assert rest[j] in multiset(rest);
        if rest[j] != x {
          assert rest[j] in multiset(s[1..]);
          var k :| 0 <= k < |s[1..]| && s[1..][k] == rest[j];
          assert leq(s[0], s[k + 1]);
        }
      }
    }
  }

  lemma {:induction false} SortSorts<T(!new)>(leq: (T, T) -> bool, s: seq<T>)
    requires TotalPreorder(leq)
    ensures Sorted(leq, Sort(leq, s))
  {
    if s != [] {
      SortSorts(leq, s[1..]);
      InsertSorted(leq, s[0], Sort(leq, s[1..]));
    }
  }

  /** A sorted list stays as it is. */
  lemma {:induction false} SortOfSorted<T(!new)>(leq: (T, T) -> bool, s: seq<T>)
    requires Sorted(leq, s)
    ensures Sort(leq, s) == s
  {
    if s != [] {
      SortOfSorted(leq, s[1..]);
      if |s| > 1 {
        assert leq(s[0], s[1]);
      }
    }
  }

  /** The elements of the rank of `x`, in their order. */
  function OfRank<T>(leq: (T, T) -> bool, x: T, s: seq<T>): seq<T> {
    Retain(y => SameRank(leq, x, y), s)
  }

  lemma RankFirst<T>(leq: (T, T) -> bool, x: T, y: T, s: seq<T>)
    ensures OfRank(leq, x, [y] + s) == (if SameRank(leq, x, y) then [y] else []) + OfRank(leq, x, s)
  {
    assert ([y] + s)[1..] == s;
  }

  lemma {:induction false} InsertIsStable<T(!new)>(leq: (T, T) -> bool, x: T, y: T, s: seq<T>)
    requires TotalPreorder(leq)
    ensures OfRank(leq, x, Insert(leq, y, s)) == OfRank(leq, x, [y] + s)
  {
    if s != [] && !leq(y, s[0]) {
      var first, rest := s[0], s[1..];
      InsertIsStable(leq, x, y, rest);
      assert s == [first] + rest;
      RankFirst(leq, x, first, Insert(leq, y, rest));
      RankFirst(leq, x, y, rest);
      RankFirst(leq, x, first, rest);
      RankFirst(leq, x, y, s);
      assert !(SameRank(leq, x, y) && SameRank(leq, x, first));
    }
  }

  /** Sorting leaves the elements of one rank in their order. */
  lemma {:induction false} SortIsStable<T(!new)>(leq: (T, T) -> bool, x: T, s: seq<T>)
    requires TotalPreorder(leq)
    ensures OfRank(leq, x, Sort(leq, s)) == OfRank(leq, x, s)
  {
    if s != [] {
      var rest := Sort(leq, s[1..]);
      SortIsStable(leq, x, s[1..]);
      InsertIsStable(leq, x, s[0], rest);
      assert ([s[0]] + rest)[1..] == rest;
    }
  }

  // ----- Removing neighbours that are the same -------------------------------

  /** A sorted list without its repeated ranks: ascending; each element is the
      first of its rank; every rank is still there. */
  lemma {:induction false} DedupOfSorted<T(!new)>(leq: (T, T) -> bool, s: seq<T>)
    requires TotalPreorder(leq) && Sorted(leq, s)
    ensures Ascending(leq, Dedup(Same(leq), s))
    decreases |s|
  {
    var same := Same(leq);
    if |s| > 1 {
      if same(s[0], s[1]) {
        DedupOfSorted(leq, [s[0]] + s[2..]);
      } else {
        DedupOfSorted(leq, s[1..]);
        var rest := Dedup(same, s[1..]);
        DedupWithin(same, s[1..]);
        forall j | 0 <= j < |rest| ensures leq(s[0], rest[j]) && !leq(rest[j], s[0]) {
          assert rest[j] in s[1..];
          var k :| 0 <= k < |s[1..]| && s[1..][k] == rest[j];
          assert leq(s[0], s[k + 1]) && (k > 0 ==> leq(s[1], s[k + 1]));
        }
      }
    }
  }

  lemma {:induction false} DedupWithin<T(!new)>(same: (T, T) -> bool, s: seq<T>)
    ensures forall x :: x in Dedup(same, s) ==> x in s
    decreases |s|
  {
    if |s| > 1 {
      if same(s[0], s[1]) {
        DedupWithin(same, [s[0]] + s[2..]);
      } else {
        DedupWithin(same, s[1..]);
      }
    }
  }

  lemma {:induction false} DedupOfAscending<T(!new)>(leq: (T, T) -> bool, s: seq<T>)
    requires Ascending(leq, s)
    ensures Dedup(Same(leq), s) == s
  {
    if |s| > 1 {
      assert !leq(s[1], s[0]);
      DedupOfAscending(leq, s[1..]);
    }
  }

  lemma FirstIsFirst<T(!new)>(leq: (T, T) -> bool, s: seq<T>, d: T)
    requires TotalPreorder(leq) && s != [] && s[0] == d
    ensures OfRank(leq, d, s) != [] && OfRank(leq, d, s)[0] == d
  {
    assert s == [d] + s[1..] && leq(d, d);
    RankFirst(leq, d, d, s[1..]);
  }

  lemma RankWithoutSecond<T(!new)>(leq: (T, T) -> bool, s: seq<T>, d: T)
    requires TotalPreorder(leq) && |s| > 1 && SameRank(leq, s[0], s[1])
    requires var shorter := [s[0]] + s[2..];
             OfRank(leq, d, shorter) != [] && OfRank(leq, d, shorter)[0] == d
    ensures OfRank(leq, d, s) != [] && OfRank(leq, d, s)[0] == d
  {
    hide OfRank;
    assert s == [s[0]] + s[1..] && s[1..] == [s[1]] + s[2..];
    RankFirst(leq, d, s[0], s[1..]);
    RankFirst(leq, d, s[1], s[2..]);
    RankFirst(leq, d, s[0], s[2..]);
  }

  lemma RankWithoutFirst<T(!new)>(leq: (T, T) -> bool, s: seq<T>, d: T)
    requires s != [] && !SameRank(leq, d, s[0])
    ensures OfRank(leq, d, s) == OfRank(leq, d, s[1..])
  {
    assert s == [s[0]] + s[1..];
    RankFirst(leq, d, s[0], s[1..]);
  }

  lemma LaterIsAbove<T(!new)>(leq: (T, T) -> bool, s: seq<T>, d: T)
    requires TotalPreorder(leq) && Sorted(leq, s) && |s| > 1 && !leq(s[1], s[0]) && d in s[1..]
    ensures !leq(d, s[0])
  {
    var k :| 0 <= k < |s[1..]| && s[1..][k] == d;
    assert d == s[k + 1] && (k > 0 ==> leq(s[1], d));
  }

  /** What stays is the first of its rank. */
  lemma {:induction false} DedupKeepsFirst<T(!new)>(leq: (T, T) -> bool, s: seq<T>, d: T)
    requires TotalPreorder(leq) && Sorted(leq, s) && d in Dedup(Same(leq), s)
    ensures OfRank(leq, d, s) != [] && OfRank(leq, d, s)[0] == d
    decreases |s|
  {
    hide OfRank;
    if s[0] == d {
      FirstIsFirst(leq, s, d);
    } else if SameRank(leq, s[0], s[1]) {
      DedupKeepsFirst(leq, [s[0]] + s[2..], d);
      RankWithoutSecond(leq, s, d);
    } else {
      assert leq(s[0], s[1]);
      DedupWithin(Same(leq), s[1..]);
      LaterIsAbove(leq, s, d);
      DedupKeepsFirst(leq, s[1..], d);
      RankWithoutFirst(leq, s, d);
    }
  }

  /** Every rank stays. */
  lemma {:induction false} DedupKeepsRanks<T(!new)>(leq: (T, T) -> bool, s: seq<T>, x: T)
    requires TotalPreorder(leq) && x in s
    ensures exists d :: d in Dedup(Same(leq), s) && SameRank(leq, d, x)
    decreases |s|
  {
    var kept := Dedup(Same(leq), s);
    assert leq(x, x);
    if |s| == 1 {
      assert kept[0] == x;
    } else if Same(leq)(s[0], s[1]) {
      var shorter := [s[0]] + s[2..];
      if x == s[1] {
        DedupKeepsRanks(leq, shorter, s[0]);
        var d :| d in Dedup(Same(leq), shorter) && SameRank(leq, d, s[0]);
      } else {
        assert x in s[2..] || x == s[0];
        DedupKeepsRanks(leq, shorter, x);
      }
    } else if x == s[0] {
      assert kept == [x] + Dedup(Same(leq), s[1..]);
      assert kept[0] == x && x in kept && SameRank(leq, x, x);
    } else {
      DedupKeepsRanks(leq, s[1..], x);
      var d :| d in Dedup(Same(leq), s[1..]) && SameRank(leq, d, x);
      assert d in kept;
    }
  }

  // ----- Retaining -----------------------------------------------------------

  lemma {:induction false} RetainIs<T>(keep: T -> bool, s: seq<T>, x: T)
    ensures x in Retain(keep, s) <==> x in s && keep(x)
  {
    if s != [] {
      RetainIs(keep, s[1..], x);
      assert x in s <==> x == s[0] || x in s[1..];
    }
  }

  lemma {:induction false} RetainAll<T>(keep: T -> bool, s: seq<T>)
    requires forall i :: 0 <= i < |s| ==> keep(s[i])
    ensures Retain(keep, s) == s
  {
    if s != [] {
      RetainAll(keep, s[1..]);
    }
  }

  /** As many are left only if all are kept. */
  lemma {:induction false} RetainWhole<T>(keep: T -> bool, s: seq<T>)
    requires |Retain(keep, s)| == |s|
    ensures Retain(keep, s) == s
    ensures forall i :: 0 <= i < |s| ==> keep(s[i])
  {
    if s != [] {
      RetainWhole(keep, s[1..]);
      assert s == [s[0]] + s[1..];
      assert forall i :: 0 < i < |s| ==> s[i] == s[1..][i - 1];
    }
  }

  // ----- Dedup by any relation -----------------------------------------------

  /** No two neighbours are the same. */
  ghost predicate NoNeighbours<T>(same: (T, T) -> bool, s: seq<T>) {
    forall i :: 0 <= i < |s| - 1 ==> !same(s[i], s[i + 1])
  }

  lemma {:induction false} DedupStarts<T>(same: (T, T) -> bool, s: seq<T>)
    ensures s != [] ==> Dedup(same, s) != [] && Dedup(same, s)[0] == s[0]
    decreases |s|
  {
    if |s| > 1 && same(s[0], s[1]) {
      DedupStarts(same, [s[0]] + s[2..]);
    }
  }

  lemma {:induction false} DedupLeavesNone<T>(same: (T, T) -> bool, s: seq<T>)
    ensures NoNeighbours(same, Dedup(same, s))
    decreases |s|
  {
    if |s| > 1 {
      if same(s[0], s[1]) {
        DedupLeavesNone(same, [s[0]] + s[2..]);
      } else {
        DedupLeavesNone(same, s[1..]);
        DedupStarts(same, s[1..]);
      }
    }
  }

  lemma NoNeighboursAfter<T>(same: (T, T) -> bool, s: seq<T>)
    requires |s| > 1 && !same(s[0], s[1])
    ensures NoNeighbours(same, s) <==> NoNeighbours(same, s[1..])
  {
    var rest := s[1..];
    if NoNeighbours(same, rest) {
      forall i | 0 <= i < |s| - 1 ensures !same(s[i], s[i + 1]) {
        assert i > 0 ==> s[i] == rest[i - 1] && s[i + 1] == rest[i];
      }
    }
    if NoNeighbours(same, s) {
      forall i | 0 <= i < |rest| - 1 ensures !same(rest[i], rest[i + 1]) {
        assert !same(s[i + 1], s[i + 2]);
      }
    }
  }

  lemma FirstAndRest<T>(x: T, rest: seq<T>, s: seq<T>)
    requires s != [] && s[0] == x
    ensures [x] + rest == s <==> rest == s[1..]
  {
    assert s == [x] + s[1..];
    assert ([x] + rest)[1..] == rest;
  }

  /** Nothing is removed exactly when no two neighbours are the same. */
  lemma {:induction false} DedupAll<T>(same: (T, T) -> bool, s: seq<T>)
    ensures NoNeighbours(same, s) <==> Dedup(same, s) == s
    ensures |Dedup(same, s)| == |s| ==> NoNeighbours(same, s)
    decreases |s|
  {
    if |s| > 1 {
      if same(s[0], s[1]) {
        assert |Dedup(same, s)| < |s|;
      } else {
        hide NoNeighbours;
        DedupAll(same, s[1..]);
        NoNeighboursAfter(same, s);
        FirstAndRest(s[0], Dedup(same, s[1..]), s);
      }
    }
  }

  /** A sorted list stays sorted. */
  lemma {:induction false} DedupStaysSorted<T(!new)>(leq: (T, T) -> bool, same: (T, T) -> bool, s: seq<T>)
    requires Sorted(leq, s)
    ensures Sorted(leq, Dedup(same, s))
    decreases |s|
  {
    if |s| > 1 {
      if same(s[0], s[1]) {
        DedupStaysSorted(leq, same, [s[0]] + s[2..]);
      } else {
        var rest := Dedup(same, s[1..]);
        DedupStaysSorted(leq, same, s[1..]);
        DedupWithin(same, s[1..]);
        forall j | 0 <= j < |rest| ensures leq(s[0], rest[j]) {
          assert rest[j] in s[1..];
          var k :| 0 <= k < |s[1..]| && s[1..][k] == rest[j];
          assert leq(s[0], s[k + 1]);
        }
      }
    }
  }

  // ----- Order of the input --------------------------------------------------

  /** How often an element is retained. */
  lemma {:induction false} RetainCount<T(!new)>(keep: T -> bool, s: seq<T>, x: T)
    ensures multiset(Retain(keep, s))[x] == if keep(x) then multiset(s)[x] else 0
  {
    if s != [] {
      RetainCount(keep, s[1..], x);
      assert s == [s[0]] + s[1..];
      assert multiset(s) == multiset{s[0]} + multiset(s[1..]);
      if keep(s[0]) {
        assert multiset(Retain(keep, s)) == multiset{s[0]} + multiset(Retain(keep, s[1..]));
      }
    }
  }

  lemma RetainOfReordered<T(!new)>(keep: T -> bool, a: seq<T>, b: seq<T>)
    requires multiset(a) == multiset(b)
    ensures multiset(Retain(keep, a)) == multiset(Retain(keep, b))
  {
    forall x ensures multiset(Retain(keep, a))[x] == multiset(Retain(keep, b))[x] {
      RetainCount(keep, a, x);
      RetainCount(keep, b, x);
    }
  }
}
