/**
 * What a view hands back, in place of HTTP responses and rendered templates.
 */
module ViewResults {
  import opened Models

  /** The pages a view redirects to. */
  datatype Location = ProfilePage(username: UserName) | PostDetailPage(postId: PostId)

  /** The result of a view that writes: a redirect, the (re-)rendered form, a 404 or the login redirect. */
  datatype Response = Redirect(to: Location) | ShowForm | PageNotFound | LoginRedirect

  /** The result of a view that reads: the rendering context, a 404 or the login redirect. */
  datatype Outcome<T> = Ok(value: T) | NotFound | LoginRequired
}
