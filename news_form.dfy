/**
 * The post form of data/news_form.py: a required title, a free content
 * text and a privacy check box. An absent text field arrives as the empty
 * string; an absent check box is false.
 */
module NewsForms {

  datatype NewsForm = NewsForm(title: string, content: string, isPrivate: bool)

  /** Only the title carries a validator. */
  datatype NewsField = Title

  /** The fields whose validators fail. */
  function Errors(f: NewsForm): (failed: set<NewsField>)
    ensures Title in failed <==> f.title == ""
  {
    if f.title == "" then {Title} else {}
  }

  /** The form validates when no field reports an error. */
  predicate Validates(f: NewsForm) {
    Errors(f) == {}
  }

  /** Validation succeeds exactly when the title is filled in. */
  lemma ValidatesIffTitle(f: NewsForm)
    ensures Validates(f) <==> f.title != ""
  {
    if f.title == "" { assert Title in Errors(f); }
  }

  /** Content and privacy flag never affect validation. */
  lemma ContentAndPrivacyIgnored(f: NewsForm, content: string, isPrivate: bool)
    ensures Validates(f.(content := content, isPrivate := isPrivate)) == Validates(f)
  {
    ValidatesIffTitle(f);
    ValidatesIffTitle(f.(content := content, isPrivate := isPrivate));
  }
}
