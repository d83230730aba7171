/**
 * `image_like` and `recipe_image_like`: add or remove the requesting user
 * in a row's `users_like` set, keyed on the POST fields `id` and `action`.
 */
module Likes {
  import opened Outcomes
  import opened PyText
  import opened Rows

  /** The `users_like` relation of one table: each row's id to the users who like it. */
  type LikeTable = map<Id, set<UserId>>

  /** The two JSON bodies the view returns, and the exception it lets escape. */
  datatype Status =
    | Ok         // {'status': 'ok'}
    | Error      // {'status': 'error'}
    | Unhandled  // the id text is not an integer: the ORM's conversion raises ValueError, which is not caught

  /**
   * The shared logic of the two like views over one table. `post` is the
   * request's POST data; `parseInt` is the integer conversion the ORM applies
   * to the id text before the lookup.
   */
  function Like(table: LikeTable, user: UserId, post: map<string, string>, parseInt: IntParser): (r: (Status, LikeTable))
    ensures r.1.Keys == table.Keys
    ensures r.0 != Ok ==> r.1 == table
    ensures r.0 == Ok <==>
      && Truthy(Get(post, "id")) && Truthy(Get(post, "action"))
      && parseInt(post["id"]).Some? && parseInt(post["id"]).value in table
    ensures r.0 == Unhandled <==>
      Truthy(Get(post, "id")) && Truthy(Get(post, "action")) && parseInt(post["id"]).None?
    ensures r.0 == Ok ==>
      var id := parseInt(post["id"]).value as Id;
      && (user in r.1[id] <==> post["action"] == "like")
      && (forall u :: u != user ==> (u in r.1[id] <==> u in table[id]))
      && (forall other :: other in table && other != id ==> r.1[other] == table[other])
  {
    var id, action := Get(post, "id"), Get(post, "action");
    if Truthy(id) && Truthy(action) then
      match parseInt(id.value)
      case None => (Unhandled, table)
      case Some(n) =>
        if n >= 0 && n as Id in table then
          var key := n as Id;
          if action.value == "like" then (Ok, table[key := table[key] + {user}])
          else (Ok, table[key := table[key] - {user}])
        else (Error, table)
    else (Error, table)
  }

  /** Repeating a like request changes nothing further: both actions are idempotent. */
  lemma LikeIdempotent(table: LikeTable, user: UserId, post: map<string, string>, parseInt: IntParser)
    ensures var (status, once) := Like(table, user, post, parseInt);
            Like(once, user, post, parseInt) == (status, once)
  {
    var (status, once) := Like(table, user, post, parseInt);
    if status == Ok {
      var key := parseInt(post["id"]).value as Id;
      var (status2, twice) := Like(once, user, post, parseInt);
      assert status2 == Ok;
      assert twice[key] == once[key];
      assert twice == once;
    }
  }

  /** The users' likes in both tables, as the two views see them. */
  datatype Db = Db(imageLikes: LikeTable, recipeImageLikes: LikeTable)

  /** `image_like`: only the Image table's likes can change. */
  function ImageLike(db: Db, user: UserId, post: map<string, string>, parseInt: IntParser): (r: (Status, Db))
    ensures r.1.recipeImageLikes == db.recipeImageLikes
    ensures r.0 != Ok ==> r.1 == db
    ensures r.0 == Ok ==> "id" in post && parseInt(post["id"]).Some? && parseInt(post["id"]).value in db.imageLikes
  {
    var (status, likes) := Like(db.imageLikes, user, post, parseInt);
    (status, db.(imageLikes := likes))
  }

  /** `recipe_image_like`: only the RecipeImage table's likes can change. */
  function RecipeImageLike(db: Db, user: UserId, post: map<string, string>, parseInt: IntParser): (r: (Status, Db))
    ensures r.1.imageLikes == db.imageLikes
    ensures r.0 != Ok ==> r.1 == db
    ensures r.0 == Ok ==> "id" in post && parseInt(post["id"]).Some? && parseInt(post["id"]).value in db.recipeImageLikes
  {
    var (status, likes) := Like(db.recipeImageLikes, user, post, parseInt);
    (status, db.(recipeImageLikes := likes))
  }

  /**
   * Liking and then unliking the same row gives back the table the user
   * started from, when the user did not like the row before.
   */
  lemma LikeThenUnlikeRestores(table: LikeTable, user: UserId, id: string, parseInt: IntParser, other: string)
    requires other != "" && other != "like"
    requires id != ""
    requires parseInt(id).Some? && parseInt(id).value in table
    requires user !in table[parseInt(id).value as Id]
    ensures var (s1, liked) := Like(table, user, map["id" := id, "action" := "like"], parseInt);
            var (s2, unliked) := Like(liked, user, map["id" := id, "action" := other], parseInt);
            s1 == Ok && s2 == Ok && unliked == table
  {
    var key := parseInt(id).value as Id;
    var liked := Like(table, user, map["id" := id, "action" := "like"], parseInt).1;
    var unliked := Like(liked, user, map["id" := id, "action" := other], parseInt).1;
    assert unliked[key] == table[key];
    assert unliked == table;
  }

  /** A request without an id or without an action is refused and changes nothing. */
  lemma MissingFieldIsError(table: LikeTable, user: UserId, post: map<string, string>, parseInt: IntParser)
    requires "id" !in post || post["id"] == "" || "action" !in post || post["action"] == ""
    ensures Like(table, user, post, parseInt) == (Error, table)
  {
  }
}
