/**
 * The bookmark form of the images app: `ImageCreateForm.clean_url`, which
 * accepts a URL by the text after its last dot, and the file-naming part of
 * `ImageCreateForm.save`.
 */
module ImageForms {
  import opened Outcomes
  import opened PyText

  /** The extensions `clean_url` accepts, compared after lowering. */
  const ValidExtensions: seq<string> := ["jpg", "jpeg", "png"]

  /** What `clean_url` and `save` can raise. */
  datatype CleanError =
    | NoDotIndexError   // `url.rsplit('.', 1)[1]` on a URL without a dot: an IndexError, not a form error
    | InvalidExtension  // the ValidationError "The given URL does not match valid image extensions."
    | InvalidFormValueError  // `ModelForm.save` on a form with errors: "could not be created because the data didn't validate"

  /** The form's cleaned data: the fields `title`, `url` and `description`. */
  datatype BookmarkForm = BookmarkForm(title: string, url: string, description: string)

  /**
   * The model instance `save` returns. `fileName` is the name handed to the
   * image field's storage; `persisted` says whether the row was written.
   */
  datatype Bookmark = Bookmark(
    title: string, url: string, description: string, fileName: string, persisted: bool)

  /** `ImageCreateForm.clean_url`: accept the URL unchanged or raise. */
  function CleanUrl(url: string): (r: Result<string, CleanError>)
    ensures r.Success? ==> r.value == url
    ensures r == Failure(NoDotIndexError) <==> '.' !in url
  {
    match RSplitLastDot(url)
    case None => Failure(NoDotIndexError)
    case Some((_, after)) =>
      if Lower(after) in ValidExtensions then Success(url) else Failure(InvalidExtension)
  }

  /**
   * Only the text after the final dot decides: writing the URL as
   * `before + "." + after` with no dot in `after`, the URL is accepted
   * exactly when `after` lowered is jpg, jpeg or png, and otherwise rejected
   * with the validation error, whatever dots `before` holds.
   */
  lemma CleanUrlDecidesOnLastSuffix(before: string, after: string)
    requires '.' !in after
    ensures CleanUrl(before + "." + after).Success? <==> Lower(after) in ValidExtensions
    ensures CleanUrl(before + "." + after).Failure? ==>
      CleanUrl(before + "." + after).error == InvalidExtension
  {
    LastDotSplitIsUnique(before, after);
  }

  /** Acceptance ignores case: a suffix and its lowered form get the same verdict. */
  lemma {:induction false} CleanUrlIgnoresCase(before: string, after: string)
    requires '.' !in after
    ensures CleanUrl(before + "." + after).Success? <==>
            CleanUrl(before + "." + Lower(after)).Success?
  {
    assert '.' !in Lower(after) by {
      forall i | 0 <= i < |after|
        ensures Lower(after)[i] != '.'
      {
        assert after[i] != '.';
      }
    }
    CleanUrlDecidesOnLastSuffix(before, after);
    CleanUrlDecidesOnLastSuffix(before, Lower(after));
    LowerIdempotent(after);
  }

  /** Upper- and mixed-case image extensions are accepted. */
  lemma UpperCaseExtensionsAccepted()
    ensures CleanUrl("x.PNG").Success?
    ensures CleanUrl("x.Jpeg").Success?
  {
    assert Lower("PNG") == "png" by {
      assert Lower("PNG")[0] == 'p' && Lower("PNG")[1] == 'n' && Lower("PNG")[2] == 'g';
    }
    CleanUrlDecidesOnLastSuffix("x", "PNG");
    assert "x" + "." + "PNG" == "x.PNG";
    assert Lower("Jpeg") == "jpeg" by {
      assert Lower("Jpeg")[0] == 'j' && Lower("Jpeg")[1] == 'p';
      assert Lower("Jpeg")[2] == 'e' && Lower("Jpeg")[3] == 'g';
    }
    CleanUrlDecidesOnLastSuffix("x", "Jpeg");
    assert "x" + "." + "Jpeg" == "x.Jpeg";
  }

  /** Only the final dot counts: an image extension in the middle does not help. */
  lemma FinalDotDecides()
    ensures CleanUrl("a.png.gif") == Failure(InvalidExtension)
    ensures CleanUrl("a.gif.png").Success?
  {
    assert CleanUrl("a.png.gif") == Failure(InvalidExtension) by {
      assert Lower("gif") == "gif" by {
        assert Lower("gif")[0] == 'g' && Lower("gif")[1] == 'i' && Lower("gif")[2] == 'f';
      }
      CleanUrlDecidesOnLastSuffix("a.png", "gif");
      assert "a.png" + "." + "gif" == "a.png.gif";
    }
    assert Lower("png") == "png" by {
      assert Lower("png")[0] == 'p' && Lower("png")[1] == 'n' && Lower("png")[2] == 'g';
    }
    CleanUrlDecidesOnLastSuffix("a.gif", "png");
    assert "a.gif" + "." + "png" == "a.gif.png";
  }

  /** A URL whose only dot is in the host name is judged by the text after that dot. */
  lemma HostDotIsTheLastDot()
    ensures RSplitLastDot("http://host.com/pic") == Some(("http://host", "com/pic"))
    ensures CleanUrl("http://host.com/pic") == Failure(InvalidExtension)
  {
    assert '.' !in "com/pic" by {
      forall i | 0 <= i < 7 ensures "com/pic"[i] != '.' {}
    }
    LastDotSplitIsUnique("http://host", "com/pic");
    assert "http://host" + "." + "com/pic" == "http://host.com/pic";
    assert |Lower("com/pic")| == 7;
    assert Lower("com/pic")[3] == '/';
    CleanUrlDecidesOnLastSuffix("http://host", "com/pic");
  }

  /**
   * The validation intended by `clean_url`: a URL without a dot is rejected
   * with the same form error as a wrong extension, instead of crashing.
   */
  function CleanUrlIntended(url: string): (r: Result<string, CleanError>)
    ensures r.Failure? ==> r.error == InvalidExtension
    ensures '.' in url ==> r == CleanUrl(url)
    ensures r.Success? <==> CleanUrl(url).Success?
  {
    match RSplitLastDot(url)
    case None => Failure(InvalidExtension)
    case Some((_, after)) =>
      if Lower(after) in ValidExtensions then Success(url) else Failure(InvalidExtension)
  }

  /**
   * A URL with no dot at all (a host without a domain, such as localhost)
   * makes `clean_url` as written raise IndexError, which the form machinery
   * does not turn into a form error; the intended check rejects it cleanly.
   */
  lemma NoDotUrlCrashesCleanUrl()
    ensures CleanUrl("http://localhost/pic") == Failure(NoDotIndexError)
    ensures CleanUrlIntended("http://localhost/pic") == Failure(InvalidExtension)
  {
    assert '.' !in "http://localhost/pic" by {
      forall i | 0 <= i < 20 ensures "http://localhost/pic"[i] != '.' {}
    }
  }

  /**
   * `ImageCreateForm.save`, without the download. `super().save(commit=False)`
   * first asks for the form's errors, which runs `clean_url`: its IndexError
   * escapes, and its validation error makes `ModelForm.save` raise
   * ValueError. Otherwise the file name is the slugified title, a dot and
   * the lowered text after the URL's last dot, and the row is written only
   * when `commit` holds. `slugify` is a parameter because its definition is
   * in the framework.
   */
  function Save(form: BookmarkForm, slugify: string -> string, commit: bool): (r: Result<Bookmark, CleanError>)
    ensures r.Success? <==> CleanUrl(form.url).Success?
    ensures r == Failure(NoDotIndexError) <==> '.' !in form.url
    ensures r == Failure(InvalidFormValueError) <==> CleanUrl(form.url) == Failure(InvalidExtension)
    ensures r.Success? ==> r.value.persisted == commit
    ensures r.Success? ==> r.value.title == form.title && r.value.url == form.url
                           && r.value.description == form.description
  {
    match CleanUrl(form.url)
    case Failure(NoDotIndexError) => Failure(NoDotIndexError)
    case Failure(_) => Failure(InvalidFormValueError)
    case Success(_) =>
      var after := RSplitLastDot(form.url).value.1;
      var name := slugify(form.title);
      Success(Bookmark(form.title, form.url, form.description, name + "." + Lower(after), commit))
  }

  /** A URL with a dot but the wrong extension is not saved: `save` raises ValueError. */
  lemma RejectedUrlIsNotSaved(slugify: string -> string, commit: bool)
    ensures Save(BookmarkForm("t", "a.gif", ""), slugify, commit) == Failure(InvalidFormValueError)
  {
    assert Lower("gif") == "gif" by {
      assert Lower("gif")[0] == 'g' && Lower("gif")[1] == 'i' && Lower("gif")[2] == 'f';
    }
    CleanUrlDecidesOnLastSuffix("a", "gif");
    assert "a" + "." + "gif" == "a.gif";
  }

  /**
   * A URL that `clean_url` accepted always saves, under the slugified title
   * followed by a dot and one of jpg, jpeg, png: the very suffix that was validated.
   */
  lemma AcceptedUrlNamesFile(form: BookmarkForm, slugify: string -> string, commit: bool)
    requires CleanUrl(form.url).Success?
    ensures Save(form, slugify, commit).Success?
    ensures var name, slug := Save(form, slugify, commit).value.fileName, slugify(form.title);
            && |slug| < |name|
            && name[..|slug|] == slug
            && name[|slug|] == '.'
            && name[|slug| + 1..] in ValidExtensions
            && name[|slug| + 1..] == Lower(RSplitLastDot(form.url).value.1)
  {
    var name, slug := Save(form, slugify, commit).value.fileName, slugify(form.title);
    var ext := Lower(RSplitLastDot(form.url).value.1);
    assert name == slug + "." + ext;
    assert name[..|slug|] == slug;
    assert name[|slug| + 1..] == ext;
  }

  /**
   * With the intended validation in front, `save` never meets the dot-less
   * URL: every form that validates is saved, and its file keeps an image extension.
   */
  lemma ValidatedFormSaves(form: BookmarkForm, slugify: string -> string, commit: bool)
    requires CleanUrlIntended(form.url).Success?
    ensures Save(form, slugify, commit).Success?
    ensures Save(form, slugify, commit).value.persisted == commit
    ensures var name, slug := Save(form, slugify, commit).value.fileName, slugify(form.title);
            |slug| < |name| && name[|slug| + 1..] in ValidExtensions
  {
    AcceptedUrlNamesFile(form, slugify, commit);
  }
}
