/**
 * The list views' choice of page: eight rows per page, the first page for a
 * page number that is missing or not an integer, and for a number out of
 * range either an empty body (the AJAX fragment request) or the last page.
 */
module Pagination {
  import opened Outcomes
  import opened PyText

  /** `Paginator(images, 8)`. */
  const PerPage: nat := 8

  /**
   * `Paginator.num_pages` with the defaults the views use (an empty first
   * page allowed, no orphans): enough pages for every row, and at least one.
   */
  function NumPages(count: nat): (n: nat)
    ensures 1 <= n
    ensures count <= n * PerPage
    ensures n == 1 || (n - 1) * PerPage < count
  {
    if count == 0 then 1 else (count + PerPage - 1) / PerPage
  }

  /** The two exceptions of `Paginator.page`. */
  datatype PageError = PageNotAnInteger | EmptyPage

  /**
   * `Paginator.validate_number` applied to the query value: no value or
   * text that is not an integer is PageNotAnInteger; an integer outside
   * 1..numPages is EmptyPage.
   */
  function ValidateNumber(page: Option<string>, numPages: nat, parseInt: IntParser): (r: Result<nat, PageError>)
    ensures r.Success? ==> 1 <= r.value <= numPages
    ensures r == Failure(PageNotAnInteger) <==> page.None? || parseInt(page.value).None?
    ensures r.Success? <==> page.Some? && parseInt(page.value).Some?
                            && 1 <= parseInt(page.value).value <= numPages
    ensures r.Success? ==> r.value == parseInt(page.value).value
  {
    match page
    case None => Failure(PageNotAnInteger)
    case Some(text) =>
      match parseInt(text)
      case None => Failure(PageNotAnInteger)
      case Some(n) => if n < 1 || n > numPages then Failure(EmptyPage) else Success(n)
  }

  /** Where page `k` of `count` rows ends: after row k * 8, or at the last row. */
  function PageEnd(count: nat, k: nat): nat
  {
    if k * PerPage <= count then k * PerPage else count
  }

  /**
   * `paginator.page(number)`: the rows from (number - 1) * 8 on. Every page
   * holds at most eight rows, only the last may hold fewer and runs to the
   * end of the list, and none is empty unless the list is.
   */
  function PageItems<T>(items: seq<T>, number: nat): (r: seq<T>)
    requires 1 <= number <= NumPages(|items|)
    ensures |r| <= PerPage
    ensures number < NumPages(|items|) ==> |r| == PerPage
    ensures number == NumPages(|items|) ==> (number - 1) * PerPage + |r| == |items|
    ensures |items| > 0 ==> |r| > 0
    ensures (number - 1) * PerPage + |r| <= |items|
    ensures r == items[(number - 1) * PerPage..(number - 1) * PerPage + |r|]
  {
    var bottom := (number - 1) * PerPage;
    var top := if bottom + PerPage >= |items| then |items| else bottom + PerPage;
    items[bottom..top]
  }

  /** Pages 1..k laid end to end. */
  function Pages<T>(items: seq<T>, k: nat): seq<T>
    requires k <= NumPages(|items|)
  {
    if k == 0 then [] else Pages(items, k - 1) + PageItems(items, k)
  }

  /** The first k pages are the first k * 8 rows. */
  lemma {:induction false} PagesArePrefix<T>(items: seq<T>, k: nat)
    requires k <= NumPages(|items|)
    ensures Pages(items, k) == items[..PageEnd(|items|, k)]
  {
    if k > 0 {
      PagesArePrefix(items, k - 1);
      var bottom := (k - 1) * PerPage;
      assert bottom <= |items| by {
        if k - 1 > 0 {
          assert (NumPages(|items|) - 1) * PerPage < |items|;
        }
      }
    }
  }

  /** The pages partition the list: all pages together are every row once, in order. */
  lemma {:induction false} PagesPartitionList<T>(items: seq<T>)
    ensures Pages(items, NumPages(|items|)) == items
  {
    PagesArePrefix(items, NumPages(|items|));
  }

  /** What a list view sends back. */
  datatype Response<T> =
    | EmptyBody                                    // HttpResponse('')
    | Rendered(number: nat, items: seq<T>, fragment: bool)  // the page rendered, as the list fragment or the full list page

  /**
   * The page-selection policy of the list views: `onlyParam` is the name of
   * the query flag asking for the bare list fragment. No page, or page text
   * that is not an integer, shows the first eight rows; an integer page in
   * range shows its eight rows; any other integer gives an empty body to a
   * fragment request and the last page's rows otherwise.
   */
  function ListView<T>(items: seq<T>, query: map<string, string>, onlyParam: string, parseInt: IntParser): (r: Response<T>)
    ensures var n, only := NumPages(|items|), Truthy(Get(query, onlyParam));
      if "page" !in query || parseInt(query["page"]).None? then
        r == Rendered(1, items[..PageEnd(|items|, 1)], only)
      else if 1 <= parseInt(query["page"]).value <= n then
        var k := parseInt(query["page"]).value;
        r == Rendered(k, items[(k - 1) * PerPage..PageEnd(|items|, k)], only)
      else if only then r == EmptyBody
      else r == Rendered(n, items[(n - 1) * PerPage..], false)
  {
    var n := NumPages(|items|);
    var only := Truthy(Get(query, onlyParam));
    var number :=
      match ValidateNumber(Get(query, "page"), n, parseInt)
      case Success(k) => Success(k)
      case Failure(PageNotAnInteger) => Success(1)
      case Failure(EmptyPage) => if only then Failure(EmptyPage) else Success(n);
    match number
    case Failure(_) => EmptyBody
    case Success(k) => Rendered(k, PageItems(items, k), only)
  }

  /** `image_list`: the fragment flag is `images_only`. */
  function ImageList<T>(images: seq<T>, query: map<string, string>, parseInt: IntParser): (r: Response<T>)
    ensures r.Rendered? ==> 1 <= r.number <= NumPages(|images|) && |r.items| <= PerPage
    ensures r.EmptyBody? <==>
      Truthy(Get(query, "images_only")) && ValidateNumber(Get(query, "page"), NumPages(|images|), parseInt) == Failure(EmptyPage)
  {
    ListView(images, query, "images_only", parseInt)
  }

  /** `recipe_image_list`: the fragment flag is `recipe_images_only`. */
  function RecipeImageList<T>(recipeImages: seq<T>, query: map<string, string>, parseInt: IntParser): (r: Response<T>)
    ensures r.Rendered? ==> 1 <= r.number <= NumPages(|recipeImages|) && |r.items| <= PerPage
    ensures r.EmptyBody? <==>
      Truthy(Get(query, "recipe_images_only")) && ValidateNumber(Get(query, "page"), NumPages(|recipeImages|), parseInt) == Failure(EmptyPage)
  {
    ListView(recipeImages, query, "recipe_images_only", parseInt)
  }

  /** With no page given, or page text that is not an integer, the first page is shown. */
  lemma NonIntegerPageGivesFirst<T>(items: seq<T>, query: map<string, string>, onlyParam: string, parseInt: IntParser)
    requires "page" !in query || parseInt(query["page"]).None?
    ensures ListView(items, query, onlyParam, parseInt).Rendered?
    ensures ListView(items, query, onlyParam, parseInt).number == 1
  {
  }

  /** An integer page within range shows exactly that page's rows, in either template. */
  lemma InRangePageShown<T>(items: seq<T>, query: map<string, string>, onlyParam: string, parseInt: IntParser)
    requires "page" in query && parseInt(query["page"]).Some?
    requires 1 <= parseInt(query["page"]).value <= NumPages(|items|)
    ensures var r, k := ListView(items, query, onlyParam, parseInt), parseInt(query["page"]).value;
      && r.Rendered? && r.number == k
      && r.items == items[(k - 1) * PerPage..PageEnd(|items|, k)]
      && r.fragment == Truthy(Get(query, onlyParam))
  {
  }

  /** An integer page past the end shows the last page, unless only the fragment was asked for. */
  lemma OutOfRangeGivesLastOrEmpty<T>(items: seq<T>, query: map<string, string>, onlyParam: string, parseInt: IntParser)
    requires "page" in query && parseInt(query["page"]).Some?
    requires var p := parseInt(query["page"]).value; p < 1 || p > NumPages(|items|)
    ensures var r := ListView(items, query, onlyParam, parseInt);
      if Truthy(Get(query, onlyParam)) then r == EmptyBody
      else r.Rendered? && r.number == NumPages(|items|) && r.items == items[(NumPages(|items|) - 1) * PerPage..]
  {
  }
}
