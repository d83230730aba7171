# Image bookmarking rules of social_plus, in Dafny

This project models the decision rules of the `images` app of the social_plus
Django site. It proves properties about them:

- **URL validation and file naming.** This covers `ImageCreateForm` and
  `RecipeImageCreateForm`. `clean_url` accepts a bookmarked URL by the text
  after its last dot. `save` names the stored file after the slugified title
  and that extension.
- **Ranking page.** The ten best-scored ids of the Redis sorted set are kept
  when their rows exist and are sorted back into ranking order.
- **Detail views.** Each view bumps a shared `image:{id}:views` counter and a
  per-kind ranking score.
- **Like views.** A user is added to or removed from a row's `users_like`
  set, with error outcomes.
- **List views.** The views page by eight. A missing or non-integer page number
  falls back to page 1. An out-of-range integer falls back to the last page,
  or to an empty body for the AJAX fragment request.

Redis, the ORM and the paginator are abstract values: maps, sets and
sequences. Python's `int()` on request text and Django's `slugify` are
function parameters.

Modules, one per concern:

- `Outcomes` (outcomes.dfy): the `Option` and `Result` types.
- `Rows` (outcomes.dfy): `Id` and `UserId`, the primary keys of rows and users.
- `PyText` (py_text.dfy): `rsplit('.', 1)`, `lower()`, `str(int)`, truthiness (`Truthy`: present and not empty, as `if image_id and action` and `if images_only` test) and `dict.get` (`Get`).
- `ImageForms` (image_forms.dfy) and `RecipeImageForms` (recipe_image_forms.dfy): the two bookmark forms.
- `Ranking` (ranking.dfy): `image_ranking` and `recipe_image_ranking`.
- `ViewCounter` (view_counter.dfy): `image_detail` and `recipe_image_detail`.
- `Likes` (likes.dfy): `image_like` and `recipe_image_like`.
- `Pagination` (pagination.dfy): `image_list` and `recipe_image_list`.

## Model

| member | source | states |
|---|---|---|
| PyText.RSplitLastDot | social_plus/images/forms.py:20 | `rsplit('.', 1)` has a second element exactly when the URL has a dot. The URL is then the part before the last dot, a dot, and a dot-free part after it. |
| PyText.LastDotSplitIsUnique | social_plus/images/forms.py:20 | Any way of writing the URL as `before + "." + after`, with no dot in `after`, is the split `rsplit` makes. Only the final dot counts. |
| PyText.LowerChar | social_plus/images/forms.py:20 | Lowering one character turns an ASCII capital into its small letter (code + 32), keeps every other character, and never yields an ASCII capital. |
| PyText.Lower | social_plus/images/forms.py:20 | `.lower()` of the suffix keeps its length and lowers it position by position, so no ASCII capital is left. It is idempotent (PyText.LowerIdempotent). `save` lowers the suffix the same way (forms.py line 31). |
| PyText.Decimal | social_plus/images/views.py:48 | `str(id)` is a non-empty run of decimal digits with no leading zero, one digit exactly for ids below 10. |
| PyText.DecimalRoundTrip | social_plus/images/views.py:48 | The decimal text of an id reads back as that id, as `int(str(id)) == id`. |
| PyText.DecimalInjective | social_plus/images/views.py:48 | Different ids format to different decimal text in `f'image:{id}:views'`. |
| PyText.Get | social_plus/images/views.py:64-65 | `request.POST.get(key)` is present exactly when the key was sent, and then holds the sent value. `request.GET.get` reads the query the same way (views.py lines 84-85). |
| ImageForms.CleanUrl | social_plus/images/forms.py:17-25 | An accepted URL is returned unchanged. The IndexError outcome happens exactly when the URL has no dot. |
| ImageForms.CleanUrlDecidesOnLastSuffix | social_plus/images/forms.py:19-24 | A URL is accepted exactly when the lowered text after its last dot is jpg, jpeg or png. Otherwise it gets the "does not match valid image extensions" validation error. |
| ImageForms.CleanUrlIgnoresCase | social_plus/images/forms.py:20 | A suffix and its lowered form get the same verdict. |
| ImageForms.UpperCaseExtensionsAccepted | social_plus/images/forms.py:20-21 | `x.PNG` and `x.Jpeg` are accepted. |
| ImageForms.FinalDotDecides | social_plus/images/forms.py:20-24 | `a.png.gif` is rejected with the validation error. `a.gif.png` is accepted. |
| ImageForms.HostDotIsTheLastDot | social_plus/images/forms.py:20-24 | `http://host.com/pic` has the suffix `com/pic` and is rejected. |
| ImageForms.NoDotUrlCrashesCleanUrl | social_plus/images/forms.py:20 | `http://localhost/pic` raises IndexError in `clean_url` as written. The intended check rejects it with the validation error. |
| ImageForms.CleanUrlIntended | social_plus/images/forms.py:17-25 | Corrected check: it raises only the validation error, agrees with `clean_url` on every URL with a dot, and accepts exactly what `clean_url` accepts. |
| ImageForms.Save | social_plus/images/forms.py:27-42 | `save` succeeds exactly when `clean_url` accepts the URL. A dot-less URL raises IndexError. A rejected extension makes `super().save` raise ValueError, because the form has errors. On success title, url and description are kept, and the row is persisted exactly when `commit` is true. |
| ImageForms.RejectedUrlIsNotSaved | social_plus/images/forms.py:27-28 | A form whose URL `a.gif` fails validation is not saved: `save` raises ValueError. |
| ImageForms.AcceptedUrlNamesFile | social_plus/images/forms.py:29-32 | For a URL `clean_url` accepted, the file name is `slugify(title)`, a dot, and the same lowered suffix `clean_url` validated. That suffix is one of jpg, jpeg, png. |
| ImageForms.ValidatedFormSaves | social_plus/images/forms.py:27-42 | Every form that passes the intended validation saves. The file keeps an image extension and `persisted == commit`. |
| RecipeImageForms.CleanUrl | social_plus/images/forms.py:52-60 | The recipe form's `clean_url` gives the image form's verdict on every URL, so every property proved of `ImageForms.CleanUrl` holds of it. |
| RecipeImageForms.Save | social_plus/images/forms.py:62-77 | The recipe form's `save` gives the image form's outcome on every form, `slugify` and `commit`: the same errors, fields, file name and persistence. |
| RecipeImageForms.AcceptedRecipeUrlNamesFile | social_plus/images/forms.py:62-77 | A recipe URL the recipe form accepts is saved under `slugify(title)` and an image extension, and is persisted exactly when `commit` is true. |
| Ranking.Top | social_plus/images/views.py:113-116 | The slice `[:10]` is a prefix of the ranking, at most 10 long, and is the whole ranking when that is shorter. |
| Ranking.KeepIn | social_plus/images/views.py:119-123 | The `id__in` filter keeps exactly the entries that are in the given set. |
| Ranking.IndexOf | social_plus/images/views.py:124 | `image_ranking_ids.index(x)` is defined for a listed id and is a position holding `x`. |
| Ranking.IndexOfIsFirst | social_plus/images/views.py:124 | No position before `image_ranking_ids.index(x)` holds `x`: it is the first occurrence, as `list.index` promises. |
| Ranking.SortByIndex | social_plus/images/views.py:124 | The sort by `image_ranking_ids.index` is a permutation of the fetched rows. |
| Ranking.SortByIndexSorted | social_plus/images/views.py:124 | The sorted rows are in non-decreasing order of position in the id list. |
| Ranking.StrictlyRankedUnique | social_plus/images/views.py:124 | Two lists with the same entries, both strictly ordered by ranking position, are equal. So the database's row order never shows through the sort. |
| Ranking.MostViewed | social_plus/images/views.py:110-129 | The page's list equals the first ten ranked ids filtered to the ids that exist, in ranking order. |
| Ranking.MostViewedShowsRankedImages | social_plus/images/views.py:113-124 | The page shows at most 10 images, each once. They are exactly the existing ids at ranking positions below 10, strictly ordered by ranking position. |
| Ranking.RecipeImageRankingAsWritten | social_plus/images/views.py:221-240 | As written, the view never produces a list: every request ends in NameError for `image_ranking_ids`. |
| Ranking.RecipeImageRankingAlwaysFails | social_plus/images/views.py:221-240 | On every input the view as written ends in that NameError. The intended view instead gives the first ten ranked recipe images that exist. |
| Ranking.RecipeImageRanking | social_plus/images/views.py:221-240 | The corrected recipe ranking gives the first ten ranked recipe images that exist, in ranking order. |
| ViewCounter.ViewsKey | social_plus/images/views.py:48 | The counter key is `image:`, then the id's decimal digits, then `:views`. `recipe_image_detail` builds its key the same way (views.py line 159). |
| ViewCounter.Incr | social_plus/images/views.py:48 | INCR returns the old count plus one (a missing key counts as 0), stores it, and changes no other key. |
| ViewCounter.ZIncrBy | social_plus/images/views.py:49 | ZINCRBY adds the amount to one member's score, starting from 0, and leaves every other set and member as it was. |
| ViewCounter.Detail | social_plus/images/views.py:46-58 | Not found is the outcome exactly when no row has that id and slug. On success the view count and the ranking score each grow by one, the reported count is the new one, and no other key or score changes. |
| ViewCounter.ImageDetail | social_plus/images/views.py:46-58 | `image_detail` bumps `image_ranking` and leaves `recipe_image_ranking` alone. The reported total is the old count plus one. |
| ViewCounter.RecipeImageDetail | social_plus/images/views.py:157-169 | `recipe_image_detail` bumps `recipe_image_ranking`, not `image_ranking`, on the same `image:{id}:views` counter. |
| ViewCounter.ViewsKeyInjective | social_plus/images/views.py:48 | Distinct ids have distinct view-counter keys. |
| ViewCounter.DetailLeavesOtherCountsAlone | social_plus/images/views.py:48-49 | A detail view of one id leaves every other id's view count unchanged. |
| ViewCounter.ImageAndRecipeShareCounter | social_plus/images/views.py:159-160 | Viewing the Image and then the RecipeImage with the same id reports two more views than before. Each ranking gains one. |
| ViewCounter.DetailPreservesCounts | social_plus/images/views.py:48-49 | Each detail view keeps this invariant: every view count equals the id's image score plus its recipe-image score. |
| ViewCounter.ServeKeepsCountsMatched | social_plus/images/views.py:46-58 | Any sequence of detail requests, of either kind and found or not, keeps that invariant. |
| Likes.Like | social_plus/images/views.py:61-77 | The status is ok exactly when `id` and `action` are non-empty and the id names a row. The user then likes the row exactly when `action == 'like'`. Other users and rows are untouched, and on error nothing changes. |
| Likes.LikeIdempotent | social_plus/images/views.py:69-74 | Repeating the same like or unlike request gives the same status and changes nothing further. |
| Likes.LikeThenUnlikeRestores | social_plus/images/views.py:69-74 | A like followed by any other non-empty action restores the table, for a user who did not like the row before. |
| Likes.MissingFieldIsError | social_plus/images/views.py:64-66 | A missing or empty `id` or `action` gives status error and changes nothing. |
| Likes.ImageLike | social_plus/images/views.py:61-77 | `image_like` can change only the Image likes. A status other than ok leaves everything unchanged. |
| Likes.RecipeImageLike | social_plus/images/views.py:172-188 | `recipe_image_like` can change only the RecipeImage likes. A status other than ok leaves everything unchanged. |
| Pagination.NumPages | social_plus/images/views.py:83 | At least one page, and enough 8-row pages for every row. Only a sole page may be empty. |
| Pagination.ValidateNumber | social_plus/images/views.py:86-91 | PageNotAnInteger exactly for a missing or non-integer page. Success exactly for an integer in 1..num_pages, and the result is that integer. |
| Pagination.PageItems | social_plus/images/views.py:83-87 | Page k is the run of rows starting at (k-1)*8. It holds at most 8 rows, exactly 8 on every page but the last. The last page runs to the end of the list, as Django's `top = count`. A page is empty only when the list is. |
| Pagination.PagesArePrefix | social_plus/images/views.py:83 | Pages 1..k together are the first 8k rows. |
| Pagination.PagesPartitionList | social_plus/images/views.py:83 | All pages together are the whole list, each row once, in order. |
| Pagination.ListView | social_plus/images/views.py:84-108 | No `page`, or text that is not an integer, renders page 1 with the first 8 rows. An integer k in 1..num_pages renders rows (k-1)*8 up to k*8. Any other integer gives an empty body when the fragment flag is set, and otherwise page num_pages with the rows from (num_pages-1)*8 on. The fragment template is used exactly when the flag is set. |
| Pagination.ImageList | social_plus/images/views.py:80-108 | A rendered page number is within range and holds at most 8 rows. An empty body happens exactly when `images_only` is set and the page is out of range. |
| Pagination.RecipeImageList | social_plus/images/views.py:191-219 | The same as `image_list`, with the flag `recipe_images_only`. |
| Pagination.NonIntegerPageGivesFirst | social_plus/images/views.py:88-90 | No page, or a page that is not an integer, renders page 1. |
| Pagination.OutOfRangeGivesLastOrEmpty | social_plus/images/views.py:91-97 | An integer page outside 1..num_pages gives an empty body when the fragment flag is set. Otherwise it gives the last page's rows. |
| Pagination.InRangePageShown | social_plus/images/views.py:86-87 | An in-range page shows exactly its own rows, in the template the flag selects. |

## Findings

| source | as written | input that shows it | evidently intended | confidence | as-written member | corrected member |
|---|---|---|---|---|---|---|
| social_plus/images/views.py:232 | `recipe_image_ranking` filters by `image_ranking_ids`, which is defined in neither the view's locals nor the module's globals | any request to the recipe ranking view | filter by `recipe_image_ranking_ids`, built two lines earlier | high, not executed | Ranking.RecipeImageRankingAsWritten (shown by Ranking.RecipeImageRankingAlwaysFails) | Ranking.RecipeImageRanking |
| social_plus/images/forms.py:20 | `url.rsplit('.', 1)[1]` indexes the split without checking for a dot, so a dot-less URL raises IndexError instead of a form error | url `http://localhost/pic` | reject it with "The given URL does not match valid image extensions." | medium, not executed (the model field's own URL validation, in models.py, is not part of this model) | ImageForms.CleanUrl (shown by ImageForms.NoDotUrlCrashesCleanUrl) | ImageForms.CleanUrlIntended |

## Left out

- Redis client, ORM queries, `get_object_or_404`, template rendering, `messages`: these are external services and framework. They appear only as maps, sets and sequences.
- `create_action` in the like views (views.py:71, 182) is a call into the actions app, which is not part of this model. The model keeps only the like sets.
- `image_create` and `recipe_image_create` are modelled only through the form's `clean_url` and `save`. The user assignment, the second save, the redirect and the flash message are framework calls.
- `requests.get` and `ContentFile`: the image download and the file storage are network and file I/O. The storage's `upload_to` path and its renaming of clashing names are not modelled, so `fileName` is the name handed to the storage.
- ImageForms.Save: of the form's validity check inside `super().save`, only the `url` field's `clean_url` is modelled. `form.url` is taken as text the `URLField` has already cleaned. Its own check (URL syntax, `max_length=2000`) is not modelled, so in the model text that field would reject goes straight to `clean_url`: `abc` gives IndexError rather than ValueError, and `http://exa mple.com/a.png` is saved. Errors of the `title` and `description` fields come from the model's field definitions, and `models.py` is not part of this model.
- `slugify` lives in the framework. It is a parameter of `Save`.
- Python's `int()` on request text is the parameter `parseInt`. This applies to the page number and to the ORM's conversion of the like `id`. Its grammar (signs, blanks, underscores, non-ASCII digits) is not modelled.
- PyText.LowerChar and PyText.Lower lower ASCII letters only, and keep the length. Python also lowers non-ASCII capitals (`'É'` to `'é'`), and `'İ'.lower()` is two characters long. No other character lowers to j, p, e, g or n, so the accept/reject verdict of `clean_url` and the extension of an accepted URL are as in Python. The lowered text of a rejected suffix may differ.
- The ordering of `ZRANGE ... desc=True` (by score, ties by member) belongs to Redis. The model takes the ranking as the ordered member list. The conversion `int(id)` of members is not modelled, and scores are integers rather than Redis doubles.
- Ranking.MostViewed requires duplicate-free ranking and table lists. Sorted-set members and primary keys are unique by construction.
- Redis INCR's 64-bit overflow error is not modelled.
- The two Redis commands of a detail view are separate requests. Concurrent requests are not modelled: ViewCounter.ServeKeepsCountsMatched serves requests one at a time.
- The `Paginator` class is not part of this model. Pagination.NumPages and Pagination.PageItems follow its default settings (an empty first page allowed, no orphans).
- `login_required` and `require_POST` are framework dispatch. So is URL routing: social_plus/images/urls.py registers `detail/<int:id>/<slug:slug>/` and `''` twice, so the recipe detail and recipe list routes are shadowed by the image ones.
- Migrations, admin.py, the blog forms and the bookmarklet script are declarative configuration or user-interface code.
