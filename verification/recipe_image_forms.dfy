/**
 * `RecipeImageCreateForm`: the recipe bookmark form. Its `clean_url` and
 * `save` repeat the image form's code line for line, with the recipe image
 * model and its `recipe_image` file field in place of the image ones.
 */
module RecipeImageForms {
  import opened Outcomes
  import opened PyText
  import ImageForms

  /** `RecipeImageCreateForm.clean_url`: the image form's verdict on every URL. */
  function CleanUrl(url: string): (r: Result<string, ImageForms.CleanError>)
    ensures r == ImageForms.CleanUrl(url)
  {
    match RSplitLastDot(url)
    case None => Failure(ImageForms.NoDotIndexError)
    case Some((_, after)) =>
      if Lower(after) in ImageForms.ValidExtensions then Success(url)
      else Failure(ImageForms.InvalidExtension)
  }

  /** `RecipeImageCreateForm.save`, without the download: the image form's outcome on every form. */
  function Save(form: ImageForms.BookmarkForm, slugify: string -> string, commit: bool)
    : (r: Result<ImageForms.Bookmark, ImageForms.CleanError>)
    ensures r == ImageForms.Save(form, slugify, commit)
  {
    match CleanUrl(form.url)
    case Failure(e) =>
      if e == ImageForms.NoDotIndexError then Failure(ImageForms.NoDotIndexError)
      else Failure(ImageForms.InvalidFormValueError)
    case Success(_) =>
      var after := RSplitLastDot(form.url).value.1;
      var name := slugify(form.title);
      Success(ImageForms.Bookmark(form.title, form.url, form.description, name + "." + Lower(after), commit))
  }

  /** In particular a recipe URL it accepts is saved under an image extension. */
  lemma AcceptedRecipeUrlNamesFile(form: ImageForms.BookmarkForm, slugify: string -> string, commit: bool)
    requires CleanUrl(form.url).Success?
    ensures Save(form, slugify, commit).Success?
    ensures var name, slug := Save(form, slugify, commit).value.fileName, slugify(form.title);
            |slug| < |name| && name[..|slug|] == slug && name[|slug| + 1..] in ImageForms.ValidExtensions
    ensures Save(form, slugify, commit).value.persisted == commit
  {
    ImageForms.AcceptedUrlNamesFile(form, slugify, commit);
  }
}
