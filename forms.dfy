/**
 * The two model forms: what each exposes to the user and how its text
 * validator accepts or rejects input.
 */
module Forms {
  import opened Models

  datatype ValidationError =
    | NotSubmitted   // the request carried no form data, so the form is unbound
    | EmptyText      // the text validator's 'empty, add some text' error
    | UnknownGroup   // the group choice names no existing group

  datatype Result<T> = Success(value: T) | Failure(error: ValidationError)

  /** The fields PostForm exposes; author and publication date are not among them. */
  const POST_FORM_FIELDS: seq<string> := ["text", "group", "image"]

  /** The one field CommentForm exposes; post and author are not among them. */
  const COMMENT_FORM_FIELDS: seq<string> := ["text"]

  /**
   * What a user can submit through PostForm. The image is not modelled, and
   * there is no way to name an author or a date: the view supplies those.
   */
  datatype PostFormData = PostFormData(text: string, group: Option<Slug>)

  /** What a user can submit through CommentForm. */
  datatype CommentFormData = CommentFormData(text: string)

  /**
   * The declared field lists leave out author and publication date. What
   * enforces this in the model is that PostFormData and CommentFormData have
   * no such fields, so the store's PostCreate and AddComment set the author to
   * the acting user and the date from the store's clock, as their
   * postconditions state.
   */
  lemma FormsLeaveOwnershipToTheView()
    ensures "author" !in POST_FORM_FIELDS && "pub_date" !in POST_FORM_FIELDS
    ensures "text" in POST_FORM_FIELDS && "group" in POST_FORM_FIELDS
    ensures COMMENT_FORM_FIELDS == ["text"]
  {
  }

  /** PostForm.clean_text: rejects exactly the empty text and returns any other unchanged. */
  function PostCleanText(data: string): (r: Result<string>)
    ensures r.Failure? <==> data == ""
    ensures r.Failure? ==> r.error == EmptyText
    ensures r.Success? ==> r.value == data
  {
    if data == "" then Failure(EmptyText) else Success(data)
  }

  /** CommentForm.clean_text: the same check as the post form's. */
  function CommentCleanText(data: string): (r: Result<string>)
    ensures r.Failure? <==> data == ""
    ensures r.Success? ==> r.value == data
  {
    if data == "" then Failure(EmptyText) else Success(data)
  }

  /** Both validators accept and reject the same texts, with the same result. */
  lemma CommentValidatorMatchesPost(data: string)
    ensures CommentCleanText(data) == PostCleanText(data)
  {
  }

  /** The validator itself does not strip: a text of blanks only is accepted as it is. */
  lemma BlankTextIsAccepted(n: nat)
    requires n > 0
    ensures PostCleanText(seq(n, _ => ' ')) == Success(seq(n, _ => ' '))
  {
  }

  /**
   * PostForm.is_valid: the form must be bound, its text must pass clean_text
   * and its group, when one is chosen, must be an existing group.
   */
  function ValidatePostForm(data: Option<PostFormData>, groups: map<Slug, Group>): (r: Result<PostFormData>)
    ensures r.Success? <==>
      data.Some? && data.value.text != "" && (data.value.group.Some? ==> data.value.group.value in groups)
    ensures r.Success? ==> r.value == data.value
    ensures data.None? ==> r == Failure(NotSubmitted)
  {
    if data.None? then Failure(NotSubmitted)
    else match PostCleanText(data.value.text)
      case Failure(e) => Failure(e)
      case Success(text) =>
        if data.value.group.Some? && data.value.group.value !in groups then Failure(UnknownGroup)
        else Success(PostFormData(text, data.value.group))
  }

  /** CommentForm.is_valid: the form must be bound and its text must pass clean_text. */
  function ValidateCommentForm(data: Option<CommentFormData>): (r: Result<CommentFormData>)
    ensures r.Success? <==> data.Some? && data.value.text != ""
    ensures r.Success? ==> r.value == data.value
  {
    if data.None? then Failure(NotSubmitted)
    else match CommentCleanText(data.value.text)
      case Failure(e) => Failure(e)
      case Success(text) => Success(CommentFormData(text))
  }
}
