/**
 * The ranking view: the ten best-scored ids of the Redis sorted set, the
 * rows of the table with those ids, and those rows sorted back into ranking order.
 */
module Ranking {
  import opened Outcomes
  import opened Rows

  /** How many entries of the ranking the view considers. */
  const RankingSize: nat := 10

  /** No id occurs twice: sorted-set members and primary keys are unique. */
  ghost predicate Distinct(s: seq<Id>)
  {
    forall i, j :: 0 <= i < j < |s| ==> s[i] != s[j]
  }

  /** `zrange(..., desc=True)[:10]`: the first ten entries of the ranking. */
  function Top(ranking: seq<Id>): (r: seq<Id>)
    ensures |r| <= RankingSize
    ensures |r| <= |ranking| && r == ranking[..|r|]
    ensures |r| == RankingSize || r == ranking
  {
    if |ranking| <= RankingSize then ranking else ranking[..RankingSize]
  }

  /** The entries of `xs` that lie in `keep`, in the order of `xs`. */
  function KeepIn(xs: seq<Id>, keep: set<Id>): (r: seq<Id>)
    ensures forall x :: x in r <==> x in xs && x in keep
    ensures |r| <= |xs|
  {
    if |xs| == 0 then []
    else (if xs[0] in keep then [xs[0]] else []) + KeepIn(xs[1..], keep)
  }

  /** Keeping some entries of a duplicate-free list leaves it duplicate-free. */
  lemma {:induction false} KeepInDistinct(xs: seq<Id>, keep: set<Id>)
    requires Distinct(xs)
    ensures Distinct(KeepIn(xs, keep))
  {
    if |xs| > 0 {
      KeepInDistinct(xs[1..], keep);
      assert xs[0] !in xs[1..];
    }
  }

  /** Python's `list.index`: the position of the first occurrence of `x`. */
  function IndexOf(s: seq<Id>, x: Id): (i: nat)
    requires x in s
    ensures i < |s| && s[i] == x
  {
    if s[0] == x then 0 else 1 + IndexOf(s[1..], x)
  }

  /** The position `IndexOf` finds is the first: no earlier entry is `x`. */
  lemma {:induction false} IndexOfIsFirst(s: seq<Id>, x: Id, j: nat)
    requires x in s && j < IndexOf(s, x)
    ensures s[j] != x
  {
    if j > 0 {
      IndexOfIsFirst(s[1..], x, j - 1);
    }
  }

  /** Every entry of `xs` appears in `ids`, so its index there is defined. */
  ghost predicate AllIn(xs: seq<Id>, ids: seq<Id>)
  {
    forall x :: x in xs ==> x in ids
  }

  /** `xs` is in non-decreasing order of position in `ids`. */
  ghost predicate SortedByIndex(xs: seq<Id>, ids: seq<Id>)
  {
    AllIn(xs, ids) &&
    forall i, j :: 0 <= i < j < |xs| ==> IndexOf(ids, xs[i]) <= IndexOf(ids, xs[j])
  }

  /** `xs` is in strictly increasing order of position in `ids`. */
  ghost predicate StrictlyRanked(xs: seq<Id>, ids: seq<Id>)
  {
    AllIn(xs, ids) &&
    forall i, j :: 0 <= i < j < |xs| ==> IndexOf(ids, xs[i]) < IndexOf(ids, xs[j])
  }

  /** One step of a stable insertion sort keyed by position in `ids`. */
  function Insert(x: Id, xs: seq<Id>, ids: seq<Id>): (r: seq<Id>)
    requires x in ids && AllIn(xs, ids)
    ensures multiset(r) == multiset(xs) + multiset{x}
    ensures forall y :: y in r <==> y in xs || y == x
  {
    if |xs| == 0 then [x]
    else if IndexOf(ids, x) < IndexOf(ids, xs[0]) then [x] + xs
    else
      assert xs == [xs[0]] + xs[1..];
      [xs[0]] + Insert(x, xs[1..], ids)
  }

  /** The tail of a sorted list is sorted, and its head comes first. */
  lemma SortedTail(xs: seq<Id>, ids: seq<Id>)
    requires SortedByIndex(xs, ids) && |xs| > 0
    ensures SortedByIndex(xs[1..], ids)
    ensures forall y :: y in xs[1..] ==> IndexOf(ids, xs[0]) <= IndexOf(ids, y)
  {
  }

  /** A sorted list stays sorted when an entry that comes before all of it is put in front. */
  lemma ConsSorted(h: Id, t: seq<Id>, ids: seq<Id>)
    requires h in ids && SortedByIndex(t, ids)
    requires forall y :: y in t ==> IndexOf(ids, h) <= IndexOf(ids, y)
    ensures SortedByIndex([h] + t, ids)
  {
  }

  /** Inserting into a sorted list keeps it sorted. */
  lemma {:induction false} InsertSorted(x: Id, xs: seq<Id>, ids: seq<Id>)
    requires x in ids && SortedByIndex(xs, ids)
    ensures SortedByIndex(Insert(x, xs, ids), ids)
  {
    if |xs| == 0 {
    } else if IndexOf(ids, x) < IndexOf(ids, xs[0]) {
      SortedTail(xs, ids);
      assert xs == [xs[0]] + xs[1..];
      ConsSorted(x, xs, ids);
    } else {
      SortedTail(xs, ids);
      InsertSorted(x, xs[1..], ids);
      ConsSorted(xs[0], Insert(x, xs[1..], ids), ids);
    }
  }

  /**
   * `list.sort(key=ids.index)`: Python's sort is stable, and so is this
   * insertion sort, so both give the same list.
   */
  function SortByIndex(xs: seq<Id>, ids: seq<Id>): (r: seq<Id>)
    requires AllIn(xs, ids)
    ensures multiset(r) == multiset(xs)
    ensures AllIn(r, ids)
  {
    if |xs| == 0 then []
    else
      var init := xs[..|xs| - 1];
      assert xs == init + [xs[|xs| - 1]];
      var sorted := SortByIndex(init, ids);
      assert forall y :: y in sorted ==> y in multiset(init);
      Insert(xs[|xs| - 1], sorted, ids)
  }

  /** The sort puts its input in order of position in `ids`. */
  lemma {:induction false} SortByIndexSorted(xs: seq<Id>, ids: seq<Id>)
    requires AllIn(xs, ids)
    ensures SortedByIndex(SortByIndex(xs, ids), ids)
  {
    if |xs| > 0 {
      var init := xs[..|xs| - 1];
      SortByIndexSorted(init, ids);
      InsertSorted(xs[|xs| - 1], SortByIndex(init, ids), ids);
    }
  }

  /** A duplicate-free list sorted by position in a duplicate-free `ids` is strictly so. */
  lemma SortedDistinctIsStrict(xs: seq<Id>, ids: seq<Id>)
    requires SortedByIndex(xs, ids) && Distinct(xs)
    ensures StrictlyRanked(xs, ids)
  {
  }

  /** Sequences with the same multiset, one of them duplicate-free, hold the same entries and are both duplicate-free. */
  lemma SameMultisetDistinct(a: seq<Id>, b: seq<Id>)
    requires multiset(a) == multiset(b) && Distinct(b)
    ensures Distinct(a)
    ensures forall x :: x in a <==> x in b
  {
    forall x ensures x in a <==> x in b {
      assert x in a <==> x in multiset(a);
      assert x in b <==> x in multiset(b);
    }
    forall i, j | 0 <= i < j < |a| ensures a[i] != a[j] {
      if a[i] == a[j] {
        assert a == a[..j] + [a[j]] + a[j + 1..];
        assert a[..j] == a[..i] + [a[i]] + a[i + 1..j];
        assert multiset(a)[a[i]] >= 2;
        DistinctCountsOnce(b, a[i]);
      }
    }
  }

  /** In a duplicate-free sequence every entry occurs at most once. */
  lemma {:induction false} DistinctCountsOnce(b: seq<Id>, x: Id)
    requires Distinct(b)
    ensures multiset(b)[x] <= 1
  {
    if |b| > 0 {
      assert b == [b[0]] + b[1..];
      DistinctCountsOnce(b[1..], x);
      if b[0] == x {
        assert x !in b[1..];
      }
    }
  }

  /** The head of a strictly ordered list comes before every other entry. */
  lemma HeadComesFirst(a: seq<Id>, ids: seq<Id>, x: Id)
    requires StrictlyRanked(a, ids) && x in a
    ensures IndexOf(ids, a[0]) <= IndexOf(ids, x)
    ensures x in a[1..] <==> x != a[0]
  {
  }

  /** Dropping the head of a strictly ordered list leaves it strictly ordered. */
  lemma TailRanked(a: seq<Id>, ids: seq<Id>)
    requires StrictlyRanked(a, ids) && |a| > 0
    ensures StrictlyRanked(a[1..], ids)
  {
  }

  /**
   * Two lists strictly ordered by position in `ids` that hold the same
   * entries are the same list: the sort has only one possible outcome.
   */
  lemma {:induction false} StrictlyRankedUnique(a: seq<Id>, b: seq<Id>, ids: seq<Id>)
    requires StrictlyRanked(a, ids) && StrictlyRanked(b, ids)
    requires forall x :: x in a <==> x in b
    ensures a == b
    decreases |a|
  {
    assert |a| > 0 ==> a[0] in a;
    assert |b| > 0 ==> b[0] in b;
    if |a| > 0 && |b| > 0 {
      HeadComesFirst(a, ids, b[0]);
      HeadComesFirst(b, ids, a[0]);
      assert a[0] == b[0];
      forall x ensures x in a[1..] <==> x in b[1..] {
        if x in a || x in b {
          HeadComesFirst(a, ids, x);
          HeadComesFirst(b, ids, x);
        } else {
          assert x !in a[1..] && x !in b[1..];
        }
      }
      TailRanked(a, ids);
      TailRanked(b, ids);
      StrictlyRankedUnique(a[1..], b[1..], ids);
      assert a == [a[0]] + a[1..] && b == [b[0]] + b[1..];
    }
  }

  /** Position in a duplicate-free list, one step past its head. */
  lemma IndexOfTail(ids: seq<Id>, x: Id)
    requires Distinct(ids) && |ids| > 0 && x in ids[1..]
    ensures IndexOf(ids, x) == 1 + IndexOf(ids[1..], x)
  {
  }

  /** An order by position in the tail of `ids` is an order by position in `ids`, after its head. */
  lemma RankedInTail(rest: seq<Id>, ids: seq<Id>)
    requires Distinct(ids) && |ids| > 0
    requires StrictlyRanked(rest, ids[1..])
    ensures StrictlyRanked(rest, ids)
    ensures forall y :: y in rest ==> 0 < IndexOf(ids, y)
  {
  }

  /** Putting an entry that comes before all of a strictly ordered list in front keeps it strictly ordered. */
  lemma ConsRanked(h: Id, t: seq<Id>, ids: seq<Id>)
    requires h in ids && StrictlyRanked(t, ids)
    requires forall k :: 0 <= k < |t| ==> IndexOf(ids, h) < IndexOf(ids, t[k])
    ensures StrictlyRanked([h] + t, ids)
  {
  }

  /** Filtering a duplicate-free list keeps its order strictly. */
  lemma {:induction false} KeepInRanked(ids: seq<Id>, keep: set<Id>)
    requires Distinct(ids)
    ensures StrictlyRanked(KeepIn(ids, keep), ids)
  {
    if |ids| > 0 {
      var tail := ids[1..];
      assert Distinct(tail);
      KeepInRanked(tail, keep);
      var rest := KeepIn(tail, keep);
      RankedInTail(rest, ids);
      assert forall k :: 0 <= k < |rest| ==> rest[k] in rest;
      if ids[0] in keep {
        assert KeepIn(ids, keep) == [ids[0]] + rest;
        ConsRanked(ids[0], rest, ids);
      } else {
        assert KeepIn(ids, keep) == rest;
      }
    }
  }

  /**
   * The core of `image_ranking`: take the first ten ids of the ranking,
   * fetch the rows of `table` (the table's ids in the order the database
   * returns them) whose id is among them, and sort those rows by the
   * position of their id in the ten. The outcome is the ten filtered to the
   * ids that exist, in ranking order: the database's order does not show through.
   */
  function MostViewed(ranking: seq<Id>, table: seq<Id>): (mostViewed: seq<Id>)
    requires Distinct(ranking)
    requires Distinct(table)
    ensures mostViewed == KeepIn(Top(ranking), set x | x in table)
  {
    var ids := Top(ranking);
    var fetched := KeepIn(table, set x | x in ids);
    var sorted := SortByIndex(fetched, ids);
    SortByIndexSorted(fetched, ids);
    assert Distinct(ids);
    KeepInDistinct(table, set x | x in ids);
    SameMultisetDistinct(sorted, fetched);
    SortedDistinctIsStrict(sorted, ids);
    KeepInRanked(ids, set x | x in table);
    StrictlyRankedUnique(sorted, KeepIn(ids, set x | x in table), ids);
    sorted
  }

  /**
   * What the ranking page shows: at most ten images, exactly those of the
   * first ten ranked ids that exist, each once, in order of their position
   * in the ranking.
   */
  lemma {:induction false} MostViewedShowsRankedImages(ranking: seq<Id>, table: seq<Id>)
    requires Distinct(ranking)
    requires Distinct(table)
    ensures |MostViewed(ranking, table)| <= RankingSize
    ensures forall x :: x in MostViewed(ranking, table) <==>
      x in table && x in ranking && IndexOf(ranking, x) < RankingSize
    ensures Distinct(MostViewed(ranking, table))
    ensures var r := MostViewed(ranking, table);
      forall i, j :: 0 <= i < j < |r| ==>
        r[i] in ranking && r[j] in ranking && IndexOf(ranking, r[i]) < IndexOf(ranking, r[j])
  {
    var ids := Top(ranking);
    var r := MostViewed(ranking, table);
    assert Distinct(ids);
    KeepInDistinct(ids, set x | x in table);
    KeepInRanked(ids, set x | x in table);
    forall x | x in ids ensures x in ranking && IndexOf(ranking, x) == IndexOf(ids, x) {
      PrefixIndex(ranking, ids, x);
    }
    forall x ensures x in ids <==> x in ranking && IndexOf(ranking, x) < RankingSize {
      if x in ranking && IndexOf(ranking, x) < RankingSize {
        assert ranking[IndexOf(ranking, x)] == x;
        assert ids[IndexOf(ranking, x)] == x;
      }
    }
  }

  /** Inside a prefix, positions agree with the full list. */
  lemma {:induction false} PrefixIndex(s: seq<Id>, p: seq<Id>, x: Id)
    requires |p| <= |s| && p == s[..|p|] && x in p
    ensures x in s && IndexOf(s, x) == IndexOf(p, x)
  {
    assert p[0] == s[0];
    if p[0] != x {
      assert p[1..] == s[1..][..|p| - 1];
      assert x in p[1..] by {
        var k :| 0 <= k < |p| && p[k] == x;
        assert p[1..][k - 1] == x;
      }
      PrefixIndex(s[1..], p[1..], x);
    }
  }

  /** The exception `recipe_image_ranking` ends in: a name bound neither locally nor globally. */
  datatype ViewError = NameError(name: string)

  /**
   * `recipe_image_ranking` as written: it fetches the recipe ranking and
   * builds `recipe_image_ranking_ids`, but then filters the table by
   * `image_ranking_ids`, a name bound neither among the view's locals nor
   * among the views module's globals (where only the function
   * `image_ranking` exists), so no list of images is ever produced.
   */
  function RecipeImageRankingAsWritten(ranking: seq<Id>, table: seq<Id>): (r: Result<seq<Id>, ViewError>)
    ensures r.Failure? && r.error.name == "image_ranking_ids"
  {
    Failure(NameError("image_ranking_ids"))
  }

  /**
   * The recipe ranking page fails on every request, whatever is ranked or
   * stored, while the intended view would list the ranked recipe images.
   */
  lemma RecipeImageRankingAlwaysFails(ranking: seq<Id>, table: seq<Id>)
    requires Distinct(ranking)
    requires Distinct(table)
    ensures RecipeImageRankingAsWritten(ranking, table) == Failure(NameError("image_ranking_ids"))
    ensures RecipeImageRanking(ranking, table) == KeepIn(Top(ranking), set x | x in table)
  {
  }

  /**
   * `recipe_image_ranking` as evidently intended, filtering by its own
   * `recipe_image_ranking_ids`: the first ten ranked recipe images that
   * exist, in ranking order, as `image_ranking` gives for images.
   */
  function RecipeImageRanking(ranking: seq<Id>, table: seq<Id>): (mostViewed: seq<Id>)
    requires Distinct(ranking)
    requires Distinct(table)
    ensures mostViewed == KeepIn(Top(ranking), set x | x in table)
    ensures |mostViewed| <= RankingSize
  {
    MostViewed(ranking, table)
  }
}
