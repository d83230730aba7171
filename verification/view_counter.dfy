/**
 * The detail views' use of Redis: `INCR image:{id}:views` for the view
 * count and `ZINCRBY` on a ranking sorted set for the score.
 */
module ViewCounter {
  import opened Outcomes
  import opened PyText
  import opened Rows

  /**
   * The part of the Redis database the views touch: integer string keys
   * (for INCR) and sorted sets from member to score (for ZINCRBY).
   */
  datatype Store = Store(counters: map<string, int>, sortedSets: map<string, map<Id, int>>)

  /**
   * The key `f'image:{id}:views'`: the fixed prefix and suffix around the
   * id's decimal digits, which name no other id (`ViewsKeyInjective`).
   */
  function ViewsKey(id: Id): (r: string)
    ensures |r| > 12 && r[..6] == "image:" && r[|r| - 6..] == ":views"
    ensures r[6..|r| - 6] == Decimal(id)
    ensures forall i :: 6 <= i < |r| - 6 ==> '0' <= r[i] <= '9'
  {
    "image:" + Decimal(id) + ":views"
  }

  /** The sorted set scored by `image_detail`. */
  const ImageRankingKey := "image_ranking"

  /** The sorted set scored by `recipe_image_detail`. */
  const RecipeImageRankingKey := "recipe_image_ranking"

  /** `GET key` as an integer; Redis treats a missing key as 0. */
  function Count(s: Store, key: string): int
  {
    if key in s.counters then s.counters[key] else 0
  }

  /** The score of `member` in sorted set `name`, 0 when absent. */
  function Score(s: Store, name: string, member: Id): int
  {
    if name in s.sortedSets && member in s.sortedSets[name] then s.sortedSets[name][member] else 0
  }

  /** `INCR key`: the new store and the value after the increment. */
  function Incr(s: Store, key: string): (r: (Store, int))
    ensures r.1 == Count(s, key) + 1 == Count(r.0, key)
    ensures forall k :: k != key ==> Count(r.0, k) == Count(s, k)
    ensures r.0.counters.Keys == s.counters.Keys + {key}
    ensures r.0.sortedSets == s.sortedSets
  {
    var n := Count(s, key) + 1;
    (s.(counters := s.counters[key := n]), n)
  }

  /** `ZINCRBY name amount member`: a missing set or member starts at 0. */
  function ZIncrBy(s: Store, name: string, amount: int, member: Id): (r: Store)
    ensures Score(r, name, member) == Score(s, name, member) + amount
    ensures forall n: string, m: Id :: (n, m) != (name, member) ==> Score(r, n, m) == Score(s, n, m)
    ensures r.sortedSets.Keys == s.sortedSets.Keys + {name}
    ensures r.counters == s.counters
  {
    var set0 := if name in s.sortedSets then s.sortedSets[name] else map[];
    var set1 := set0[member := Score(s, name, member) + amount];
    s.(sortedSets := s.sortedSets[name := set1])
  }

  /** `get_object_or_404` found no row with that id and slug: HTTP 404. */
  datatype DetailError = NotFound

  /**
   * A detail view: look the row up by id and slug in `table` (id to slug),
   * increment the shared view counter, add 1 to the row's score in
   * `ranking`, and report the count after the increment.
   */
  function Detail(s: Store, table: map<Id, string>, id: Id, slug: string, ranking: string): (r: Result<(Store, int), DetailError>)
    ensures r.Failure? <==> !(id in table && table[id] == slug)
    ensures r.Success? ==> r.value.1 == Count(s, ViewsKey(id)) + 1 == Count(r.value.0, ViewsKey(id))
    ensures r.Success? ==> Score(r.value.0, ranking, id) == Score(s, ranking, id) + 1
    ensures r.Success? ==> forall k :: k != ViewsKey(id) ==> Count(r.value.0, k) == Count(s, k)
    ensures r.Success? ==> forall n: string, m: Id :: (n, m) != (ranking, id) ==> Score(r.value.0, n, m) == Score(s, n, m)
  {
    if id in table && table[id] == slug then
      var (s1, views) := Incr(s, ViewsKey(id));
      Success((ZIncrBy(s1, ranking, 1, id), views))
    else Failure(NotFound)
  }

  /** `image_detail`: the Image table, scored in `image_ranking`. */
  function ImageDetail(s: Store, images: map<Id, string>, id: Id, slug: string): (r: Result<(Store, int), DetailError>)
    ensures r.Failure? <==> !(id in images && images[id] == slug)
    ensures r.Success? ==> r.value.1 == Count(s, ViewsKey(id)) + 1
    ensures r.Success? ==> Score(r.value.0, ImageRankingKey, id) == Score(s, ImageRankingKey, id) + 1
    ensures r.Success? ==> Score(r.value.0, RecipeImageRankingKey, id) == Score(s, RecipeImageRankingKey, id)
  {
    Detail(s, images, id, slug, ImageRankingKey)
  }

  /**
   * `recipe_image_detail`: the RecipeImage table, the same `image:{id}:views`
   * counter, scored in `recipe_image_ranking`.
   */
  function RecipeImageDetail(s: Store, recipeImages: map<Id, string>, id: Id, slug: string): (r: Result<(Store, int), DetailError>)
    ensures r.Failure? <==> !(id in recipeImages && recipeImages[id] == slug)
    ensures r.Success? ==> r.value.1 == Count(s, ViewsKey(id)) + 1
    ensures r.Success? ==> Score(r.value.0, RecipeImageRankingKey, id) == Score(s, RecipeImageRankingKey, id) + 1
    ensures r.Success? ==> Score(r.value.0, ImageRankingKey, id) == Score(s, ImageRankingKey, id)
  {
    Detail(s, recipeImages, id, slug, RecipeImageRankingKey)
  }

  /** Distinct ids have distinct view-counter keys, so a view of one image leaves every other count alone. */
  lemma ViewsKeyInjective(a: Id, b: Id)
    requires ViewsKey(a) == ViewsKey(b)
    ensures a == b
  {
    var ka, kb := ViewsKey(a), ViewsKey(b);
    assert |Decimal(a)| == |Decimal(b)|;
    assert Decimal(a) == ka[6..|ka| - 6];
    assert Decimal(b) == kb[6..|kb| - 6];
    DecimalInjective(a, b);
  }

  /** A detail view of one image changes no other image's view count. */
  lemma DetailLeavesOtherCountsAlone(s: Store, table: map<Id, string>, id: Id, slug: string, ranking: string, other: Id)
    requires Detail(s, table, id, slug, ranking).Success?
    requires other != id
    ensures Count(Detail(s, table, id, slug, ranking).value.0, ViewsKey(other)) == Count(s, ViewsKey(other))
  {
    if ViewsKey(other) == ViewsKey(id) {
      ViewsKeyInjective(other, id);
    }
  }

  /**
   * An Image and a RecipeImage with the same id share one counter: viewing
   * the image and then the recipe image reports two more than before, while
   * each ranking gains one.
   */
  lemma ImageAndRecipeShareCounter(s: Store, images: map<Id, string>, recipeImages: map<Id, string>, id: Id, slug: string, slug': string)
    requires id in images && images[id] == slug
    requires id in recipeImages && recipeImages[id] == slug'
    ensures var (s1, _) := ImageDetail(s, images, id, slug).value;
            var (s2, views) := RecipeImageDetail(s1, recipeImages, id, slug').value;
            && views == Count(s, ViewsKey(id)) + 2
            && Score(s2, ImageRankingKey, id) == Score(s, ImageRankingKey, id) + 1
            && Score(s2, RecipeImageRankingKey, id) == Score(s, RecipeImageRankingKey, id) + 1
  {
  }

  /**
   * The invariant the two detail views keep together: every view count is
   * the sum of that id's scores in the two rankings.
   */
  ghost predicate CountsMatchScores(s: Store)
  {
    forall id: Id :: Count(s, ViewsKey(id)) == Score(s, ImageRankingKey, id) + Score(s, RecipeImageRankingKey, id)
  }

  /** An empty database satisfies the invariant. */
  lemma EmptyStoreMatches()
    ensures CountsMatchScores(Store(map[], map[]))
  {
  }

  /** Each detail view preserves the invariant. */
  lemma DetailPreservesCounts(s: Store, table: map<Id, string>, id: Id, slug: string, ranking: string)
    requires CountsMatchScores(s)
    requires ranking == ImageRankingKey || ranking == RecipeImageRankingKey
    requires Detail(s, table, id, slug, ranking).Success?
    ensures CountsMatchScores(Detail(s, table, id, slug, ranking).value.0)
  {
    var s' := Detail(s, table, id, slug, ranking).value.0;
    forall other: Id
      ensures Count(s', ViewsKey(other)) == Score(s', ImageRankingKey, other) + Score(s', RecipeImageRankingKey, other)
    {
      if other != id {
        DetailLeavesOtherCountsAlone(s, table, id, slug, ranking, other);
      }
    }
  }

  /** A request to one of the two detail views. */
  datatype Visit = ImageVisit(id: Id, slug: string) | RecipeImageVisit(id: Id, slug: string)

  /** The store after serving `visits` in order; a 404 leaves it as it was. */
  function Serve(s: Store, images: map<Id, string>, recipeImages: map<Id, string>, visits: seq<Visit>): Store
    decreases |visits|
  {
    if |visits| == 0 then s
    else
      var r := match visits[0]
        case ImageVisit(id, slug) => ImageDetail(s, images, id, slug)
        case RecipeImageVisit(id, slug) => RecipeImageDetail(s, recipeImages, id, slug);
      Serve(if r.Success? then r.value.0 else s, images, recipeImages, visits[1..])
  }

  /**
   * Starting from a store that keeps the invariant, any run of detail views
   * keeps it: no interleaving makes the counter and the scores drift apart.
   */
  lemma {:induction false} ServeKeepsCountsMatched(s: Store, images: map<Id, string>, recipeImages: map<Id, string>, visits: seq<Visit>)
    requires CountsMatchScores(s)
    ensures CountsMatchScores(Serve(s, images, recipeImages, visits))
    decreases |visits|
  {
    if |visits| > 0 {
      var s1 := s;
      match visits[0] {
        case ImageVisit(id, slug) =>
          if ImageDetail(s, images, id, slug).Success? {
            DetailPreservesCounts(s, images, id, slug, ImageRankingKey);
            s1 := ImageDetail(s, images, id, slug).value.0;
          }
        case RecipeImageVisit(id, slug) =>
          if RecipeImageDetail(s, recipeImages, id, slug).Success? {
            DetailPreservesCounts(s, recipeImages, id, slug, RecipeImageRankingKey);
            s1 := RecipeImageDetail(s, recipeImages, id, slug).value.0;
          }
      }
      ServeKeepsCountsMatched(s1, images, recipeImages, visits[1..]);
    }
  }
}
