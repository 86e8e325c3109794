# yatube posts: a verified model

This project models the core of yatube, a small blogging site built on Django. Users publish
text posts and may file them under a group. They comment on posts and follow other authors.
A personal feed shows the posts of the authors a user follows.

The model is a sequential state machine over an in-memory store:

- `users`: a set of user names.
- `groups`: keyed by their unique slug.
- `posts`: a sequence kept newest first.
- `comments`: in the order they were written.
- `follows`: a set of (follower, author) pairs.

The database layer becomes plain operations on these collections:

- Saving a record is a store update.
- `get_or_create` is set insertion.
- `filter(...).delete()` is set removal.
- A related manager such as `author.posts` is a filter over the post list.

The acting user is an explicit `Option<UserName>` argument. `None` is an anonymous visitor.

Modules, one per concern of the source:

- `Models` (`models.dfy`) covers the records, the `__str__` forms, the newest-first ordering and the sequence helpers every listing is built from.
- `Forms` (`forms.dfy`) covers the fields each model form exposes, the two `clean_text` validators and form validity.
- `Pagination` (`pagination.dfy`) covers the `paginator` helper: pages of ten, with the page-number clamping of the framework's `get_page`.
- `ViewResults` (`results.dfy`) holds the abstract responses: a redirect to a profile or a post page, the form shown again, not found, and the login redirect.
- `Feeds` (`feeds.dfy`) holds the read-only views `index`, `group_posts`, `profile`, `post_detail` and `follow_index` as functions of the store's contents. It also holds the lemmas relating the feeds to writes: follow, unfollow, a new post, an edit and a group deletion.
- `Actions` (`store.dfy`) is the `Store` class. Its methods are the writing views `post_create`, `post_edit`, `add_comment`, `profile_follow` and `profile_unfollow`, plus the `on_delete` policies as deletion methods. Every method keeps `Valid()`:
  - every reference points at an existing record;
  - posts are newest first with distinct ids;
  - nobody follows themselves.
- `PageCache` (`cache.dfy`) models the twenty-second page cache in front of the global feed as a class with one entry and an explicit time parameter.
- `Scenarios` (`scenarios.dfy`) has client methods that replay the repository's test scenarios from the contracts alone:
  - follow, unfollow and a new post in the follow feed;
  - a stranger's edit and an author's edit;
  - the cache surviving a deletion until it is cleared.

Publication times come from a logical clock in the store, which every creation of a post or a comment advances; no other write touches it. This models `auto_now_add`, and it is what keeps the post list strictly newest first.

## Model

| member | source | states |
|---|---|---|
| Models.Truncate | yatube/posts/models.py:5 | the first fifteen characters of a text: a prefix of length min(len, 15), the whole text when shorter |
| Models.PostStr | yatube/posts/models.py:47-48 | `Post.__str__` is a prefix of the text of length min(len, 15) |
| Models.CommentStrAsWritten | yatube/posts/models.py:77-78 | `Comment.__str__` as written is defined exactly when the text is longer than fifteen characters, and is then the single character at index 15 |
| Models.CommentStrFailsOnShortComment | yatube/posts/models.py:77-78 | the comment text used by the test suite ("Первый коммент", 14 characters) has no string form as written |
| Models.CommentStr | yatube/posts/models.py:77-78 | the corrected `Comment.__str__` is defined for every comment and is a prefix of its text of length min(len, 15) |
| Models.Filter | yatube/posts/views.py:32 | a related-manager or queryset filter: exactly the elements of the list that the condition accepts, and no more of them |
| Models.FilterMultiset | yatube/posts/views.py:43 | filtering keeps each accepted element as often as it occurs and drops every rejected one |
| Models.FilterPairwise | yatube/posts/models.py:50-51 | a filtered queryset keeps the model's default ordering: any pairwise order of the list holds of the filtered list |
| Models.FilterNone | yatube/posts/models.py:33-40 | a filter that accepts none of the list's elements gives the empty list, as the feed of a group whose posts were all moved out is |
| Models.ReplacePost | yatube/posts/views.py:87-93 | saving the edit form replaces the text and group of the post with that id, in place; every other post and the list's length are unchanged |
| Models.ClearGroup | yatube/posts/models.py:33-40 | `on_delete=SET_NULL` on a group: each post that referred to the group has no group, everything else is unchanged, position by position |
| Models.SameKeysSameOrder | yatube/posts/models.py:50-51 | updates that keep ids and publication dates keep the id set, the newest-first order and the uniqueness of ids |
| Models.FindPost | yatube/posts/views.py:58 | `get_object_or_404(Post, id=...)`: a post is found exactly when one with that id exists, and the one found carries that id |
| Models.FindPostUnique | yatube/posts/views.py:85 | with unique ids, the post looked up by a post's id is that very post |
| Forms.FormsLeaveOwnershipToTheView | yatube/posts/forms.py:9 | the field lists of the two forms: PostForm names text and group but neither author nor publication date; CommentForm names only text |
| Forms.PostCleanText | yatube/posts/forms.py:20-25 | `PostForm.clean_text` fails exactly on the empty string, with the empty-text error, and returns any other text unchanged |
| Forms.CommentCleanText | yatube/posts/forms.py:41-46 | `CommentForm.clean_text` fails exactly on the empty string and returns any other text unchanged |
| Forms.CommentValidatorMatchesPost | yatube/posts/forms.py:41-46 | the comment validator gives the same result as the post validator on every text |
| Forms.BlankTextIsAccepted | yatube/posts/forms.py:23 | the validator does not strip: a non-empty text of blanks passes unchanged |
| Forms.ValidatePostForm | yatube/posts/views.py:73-74 | the post form is valid exactly when it is bound, its text is non-empty and its chosen group, if any, exists; a valid form yields the submitted data |
| Forms.ValidateCommentForm | yatube/posts/views.py:107-108 | the comment form is valid exactly when it is bound and its text is non-empty; a valid form yields the submitted data |
| Pagination.NumPages | yatube/posts/views.py:9-13 | the page count is at least one, and on a non-empty listing it is the least n with count <= 10n |
| Pagination.ClampPage | yatube/posts/views.py:14-15 | the page served is always a real page: 1 for a missing number, the number itself when in range, and the last page otherwise |
| Pagination.Paginate | yatube/posts/views.py:12-16 | a page knows the item count and the page count; it serves the clamped page number; it holds min(10, what remains) items, which are exactly the listing's consecutive items from position (number-1)*10 |
| Pagination.PaginatePairwise | yatube/posts/views.py:12-16 | a page keeps the order of the listing it is cut from |
| Pagination.PagesPartitionList | yatube/posts/views.py:12-16 | the pages read one after another give back the whole listing, in order, with nothing repeated or missing |
| Pagination.ThirteenPostsSplitTenThree | yatube/posts/tests/test_views.py:160-245 | thirteen posts make a first page of ten and a second, last page of three |
| Pagination.ShortListIsOnePage | yatube/posts/views.py:12-16 | a listing of at most ten items is one page, page 1, holding the whole listing |
| Feeds.GroupPostList | yatube/posts/views.py:32 | a group's posts are exactly the posts whose group is that slug, each as often as in the store, in newest-first order |
| Feeds.AuthorPostList | yatube/posts/views.py:43-44 | an author's posts are exactly the posts by that author, each as often as in the store, in newest-first order |
| Feeds.FollowPostList | yatube/posts/views.py:119 | the follow feed is exactly the posts whose author the viewer follows, each as often as in the store, in newest-first order |
| Feeds.Index | yatube/posts/views.py:19-26 | the global feed is the paginated list of all posts, so its page number, page count and items are those of `Paginate`; it counts every post, shows only stored ones, and keeps them newest first |
| Feeds.PaginateNewestFirst | yatube/posts/models.py:50-51 | a page of a newest-first listing is newest first |
| Feeds.GroupPosts | yatube/posts/views.py:29-37 | not found exactly for an unknown slug; otherwise the group and the paginated group feed |
| Feeds.GroupPageHoldsOnlyGroupPosts | yatube/posts/views.py:31-35 | a known group's page counts exactly that group's posts, and every post it shows belongs to the group |
| Feeds.Profile | yatube/posts/views.py:40-53 | not found exactly for an unknown user. Otherwise: the author's posts paginated; `post_count` equal to the author's post count; a `following` flag present exactly for an authenticated viewer, and true exactly when that viewer follows the author |
| Feeds.PostDetail | yatube/posts/views.py:56-67 | not found exactly for an unknown id. Otherwise: the post with that id; its author's post count; exactly the comments on that post |
| Feeds.FollowIndex | yatube/posts/views.py:116-123 | the login redirect exactly for an anonymous viewer; otherwise the paginated follow feed |
| Feeds.FollowFeedEmptyWithoutFollows | yatube/posts/tests/test_follow.py:82-108 | a viewer who follows nobody has an empty follow feed |
| Feeds.FollowAddsAuthorsPostsInFilter | yatube/posts/views.py:119-133 | the same size change as for the follow feed, stated on the filtered post lists the feeds are, proved by induction over the list |
| Feeds.FollowAddsAuthorsPosts | yatube/posts/views.py:119-133 | following a new author grows the follow feed by exactly that author's post count |
| Feeds.UnfollowRemovesAuthorsPosts | yatube/posts/views.py:119-144 | unfollowing an author shrinks the follow feed by exactly that author's post count, and no post of that author remains in it |
| Feeds.NewPostHeadsFollowFeed | yatube/posts/tests/test_follow.py:110-141 | a new post goes to the front of each of its author's followers' feeds and leaves every other viewer's feed unchanged |
| Feeds.EditMovesPostInGroupFilter | yatube/posts/views.py:86-94 | the same size change as for the group feed, stated on the filtered post list that the group feed is, proved by induction over the list |
| Feeds.EditMovesPostBetweenGroupFeeds | yatube/posts/views.py:86-94 | an edit changes each group feed's size by exactly one move: minus one for the old group, plus one for the new group |
| Feeds.EditedPostInNewGroupFeed | yatube/posts/tests/test_forms.py:63-101 | after an edit the post stays at its place with the new text and group, and is in a group's feed exactly when that group is the new one |
| Feeds.GroupDeletionKeepsOtherFeeds | yatube/posts/models.py:33-40 | deleting a group leaves the feed of every other group unchanged |
| Feeds.GroupDeletionKeepsPosts | yatube/posts/models.py:33-40 | deleting a group deletes no post: the same number of posts and the same ids remain, and the deleted group's feed is empty |
| Actions.Followed | yatube/posts/views.py:126-134 | after a follow request the pair exists unless it is a self-follow; no other pair changes; at most one pair is added |
| Actions.Unfollowed | yatube/posts/views.py:137-145 | after an unfollow request the pair is gone unless it is a self-unfollow; no other pair changes; at most one pair is removed |
| Actions.FollowIsIdempotent | yatube/posts/views.py:130-133 | following twice leaves the same pairs as following once |
| Actions.UnfollowIsIdempotent | yatube/posts/views.py:141-144 | unfollowing twice leaves the same pairs as unfollowing once |
| Actions.UnfollowUndoesFollow | yatube/posts/views.py:126-145 | unfollowing after a follow that created a pair restores the original pairs |
| Actions.PrependKeepsOrder | yatube/posts/models.py:23-26 | a post dated after all others, with a fresh id, may go in front of a newest-first list with unique ids, and the list stays so |
| Actions.EditKeepsConsistency | yatube/posts/views.py:87-93 | replacing a post's text and existing group keeps the post and comment invariants |
| Actions.GroupDeletionKeepsConsistency | yatube/posts/models.py:33-40 | the set-null policy keeps the post and comment invariants once the group is gone |
| Actions.PostDeletionKeepsConsistency | yatube/posts/models.py:57-62 | deleting a post together with its comments leaves no comment on a missing post |
| Actions.UserDeletionKeepsConsistency | yatube/posts/models.py:27-32 | deleting a user's posts and the comments they wrote or that were on their posts leaves no dangling reference |
| Actions.UserDeletionKeepsFollows | yatube/posts/models.py:86-97 | dropping every follow pair in which a deleted user takes part leaves only pairs between remaining users |
| Actions.Store.constructor | yatube/posts/models.py:8-104 | the empty store satisfies every invariant |
| Actions.Store.AddUser | yatube/posts/models.py:4 | registering a name adds it to the users and changes nothing else |
| Actions.Store.CreateGroup | yatube/posts/models.py:10 | a group is added only under a slug not yet taken; nothing else changes |
| Actions.Store.PostCreate | yatube/posts/views.py:70-79 | anonymous: the login redirect; invalid form: the form again; in both cases nothing changes. Valid form: exactly one new post at the front, whose author is the acting user, with the submitted text and group and the current time, then a redirect to the author's profile |
| Actions.Store.PostEdit | yatube/posts/views.py:82-101 | anonymous: the login redirect; unknown id: not found; a non-author: a redirect to the post's page; the author with an invalid form: the form again. In all four cases nothing changes. Valid form from the author: that post's text and group are replaced in place and the answer is a redirect to the post's page |
| Actions.Store.AddComment | yatube/posts/views.py:104-113 | anonymous: the login redirect; unknown post: not found. Otherwise always a redirect to the post's page, and one comment by the actor on that post is appended exactly when the form is valid |
| Actions.Store.ProfileFollow | yatube/posts/views.py:126-134 | anonymous: the login redirect; unknown author: not found. Otherwise the follow pairs become `Followed(...)`, nothing else changes, and the answer is a redirect to the author's profile |
| Actions.Store.ProfileUnfollow | yatube/posts/views.py:137-145 | anonymous: the login redirect; unknown author: not found. Otherwise the follow pairs become `Unfollowed(...)`, nothing else changes, and the answer is a redirect to the author's profile |
| Actions.Store.DeleteGroup | yatube/posts/models.py:33-40 | deleting a group removes it and clears the group of its posts; no post, comment, user or follow pair is deleted |
| Actions.Store.DeletePost | yatube/posts/models.py:57-62 | deleting a post removes it and exactly the comments on it |
| Actions.Store.DeleteUser | yatube/posts/models.py:27-97 | deleting a user removes them and their posts. It also removes every comment they wrote or that was on one of their posts, and every follow pair in which they are either party |
| PageCache.IndexCache.constructor | yatube/posts/views.py:19 | a new cache for one request URL holds nothing |
| PageCache.IndexCache.Get | yatube/posts/views.py:19 | while the entry is fresh, the cached page is returned and kept. Otherwise the current global feed page is returned and cached for twenty seconds |
| PageCache.IndexCache.Clear | yatube/posts/tests/test_cache.py:28-53 | after clearing, the cache holds nothing, so the next request sees the current posts |

## Left out

- Templates, HTTP request and response objects, URL routing, status codes and CSRF are left out. Responses are the abstract `Response` and `Outcome` values.
- The `next` parameter of the login redirect is not modelled. The login redirect carries no target.
- The authenticated acting user is assumed to be a registered user. This is stated as a precondition of each writing method.
- Image upload and storage (`Post.image`, the `files` argument of PostForm) are file I/O and are not modelled. `PostFormData` carries only text and group.
- `Follow.__str__` is not modelled. It subscripts a User object, which is not a sequence in this model.
- `Group.__str__` is not modelled.
- The admin registrations, the schema migration, the sign-up form of the users app and the error-page views are not part of this model.
- Concurrency, such as two identical follow requests racing on `get_or_create`, is not modelled. Requests are applied one at a time.
- Form.is_valid does not model the framework's own field cleaning: the stripping and the required check of the text field. The model applies only the source's own `clean_text` check.
- Forms.ValidatePostForm: a group choice is valid when the group exists, which stands for the framework's model-choice field lookup.
- Pagination.ClampPage: the page-number clamping of the framework's `get_page` is an assumption about the library. A non-numeric page parameter is represented as a missing one.
- PageCache.IndexCache: real time, cache keys and the headers that vary the cache are not modelled. Time is the `now` parameter, and one cache object stands for one request URL.
- Publication and comment times are modelled as a logical clock rather than wall-clock time.
- Comments have no declared ordering in the source. The model keeps them in the order they were written.

## Findings

| source | as written | input that shows it | evidently intended | confidence | as-written member | corrected member |
|---|---|---|---|---|---|---|
| yatube/posts/models.py:77-78 | `Comment.__str__` subscripts the text at index 15. It raises IndexError for a text of at most fifteen characters and otherwise yields a single character | the comment "Первый коммент" (14 characters) | the first fifteen characters of the text, like `Post.__str__` | not executed | Models.CommentStrAsWritten | Models.CommentStr |
