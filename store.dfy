/**
 * The in-memory store standing in for the database, and the views that
 * write to it: creating and editing posts, commenting, following and
 * unfollowing, plus the deletion policies the schema declares.
 *
 * Identity is an explicit argument: None is an anonymous visitor, who gets
 * the login redirect and changes nothing. An authenticated user is always a
 * registered one. Publication times come from a logical clock that every
 * creation of a post or a comment advances.
 */
module Actions {
  import opened Models
  import opened Forms
  import opened Feeds
  import opened ViewResults

  /** The follow pairs after `user` asks to follow `author`: a self-follow creates nothing. */
  function Followed(follows: set<Follow>, user: UserName, author: UserName): (r: set<Follow>)
    ensures Follow(user, author) in r <==> user != author || Follow(user, author) in follows
    ensures forall f :: f != Follow(user, author) ==> (f in r <==> f in follows)
    ensures |r| == |follows| + (if user != author && Follow(user, author) !in follows then 1 else 0)
  {
    var f := Follow(user, author);
    if user == author then follows
    else if f in follows then follows
    else
      assert follows * {f} == {};
      follows + {f}
  }

  /** The follow pairs after `user` asks to unfollow `author`: a self-unfollow changes nothing. */
  function Unfollowed(follows: set<Follow>, user: UserName, author: UserName): (r: set<Follow>)
    ensures Follow(user, author) in r <==> user == author && Follow(user, author) in follows
    ensures forall f :: f != Follow(user, author) ==> (f in r <==> f in follows)
    ensures |r| == |follows| - (if user != author && Follow(user, author) in follows then 1 else 0)
  {
    var f := Follow(user, author);
    if user == author then follows
    else if f !in follows then follows
    else
      assert (follows - {f}) + {f} == follows && (follows - {f}) * {f} == {};
      follows - {f}
  }

  /** Following again changes nothing: there is still exactly one pair. */
  lemma FollowIsIdempotent(follows: set<Follow>, user: UserName, author: UserName)
    ensures Followed(Followed(follows, user, author), user, author) == Followed(follows, user, author)
  {
  }

  /** Unfollowing when not following changes nothing. */
  lemma UnfollowIsIdempotent(follows: set<Follow>, user: UserName, author: UserName)
    ensures Unfollowed(Unfollowed(follows, user, author), user, author) == Unfollowed(follows, user, author)
  {
  }

  /** Unfollowing undoes a follow that created a pair. */
  lemma UnfollowUndoesFollow(follows: set<Follow>, user: UserName, author: UserName)
    requires Follow(user, author) !in follows
    ensures Unfollowed(Followed(follows, user, author), user, author) == follows
  {
  }

  predicate GroupsKeyedBySlug(groups: map<Slug, Group>)
  {
    forall s :: s in groups ==> groups[s].slug == s
  }

  predicate PostsConsistent(posts: seq<Post>, users: set<UserName>, groups: map<Slug, Group>, clock: int, nextPostId: PostId)
  {
    && NewestFirst(posts)
    && UniqueIds(posts)
    && forall p :: p in posts ==>
         && p.author in users
         && (p.group.Some? ==> p.group.value in groups)
         && p.pubDate < clock
         && p.id < nextPostId
  }

  predicate CommentsConsistent(comments: seq<Comment>, posts: seq<Post>, users: set<UserName>, clock: int, nextCommentId: CommentId)
  {
    forall c :: c in comments ==>
      && c.author in users
      && c.post in PostIds(posts)
      && c.created < clock
      && c.id < nextCommentId
  }

  predicate FollowsConsistent(follows: set<Follow>, users: set<UserName>)
  {
    forall f :: f in follows ==> f.user in users && f.author in users && f.user != f.author
  }

  /** The follow pairs in which `name` is neither the follower nor the author. */
  function FollowsWithout(follows: set<Follow>, name: UserName): set<Follow>
  {
    set f | f in follows && f.user != name && f.author != name
  }

  class Store {
    var users: set<UserName>
    var groups: map<Slug, Group>
    var posts: seq<Post>          // newest first
    var comments: seq<Comment>    // in the order they were written
    var follows: set<Follow>
    var clock: int
    var nextPostId: PostId
    var nextCommentId: CommentId

    /**
     * Every reference points at an existing record, posts are newest first
     * with distinct ids, and nobody follows themselves.
     */
    ghost predicate Valid()
      reads this
    {
      && GroupsKeyedBySlug(groups)
      && PostsConsistent(posts, users, groups, clock, nextPostId)
      && CommentsConsistent(comments, posts, users, clock, nextCommentId)
      && FollowsConsistent(follows, users)
    }

    constructor ()
      ensures Valid()
      ensures users == {} && groups == map[] && posts == [] && comments == [] && follows == {}
    {
      users, groups, posts, comments, follows := {}, map[], [], [], {};
      clock, nextPostId, nextCommentId := 0, 0, 0;
    }

    /** Registers a user name with the identity provider; names are unique. */
    method AddUser(name: UserName) returns (added: bool)
      requires Valid()
      modifies this
      ensures Valid()
      ensures added == (name !in old(users))
      ensures users == old(users) + {name}
      ensures groups == old(groups) && posts == old(posts) && comments == old(comments) && follows == old(follows)
    {
      added := name !in users;
      users := users + {name};
    }

    /** Creates a group; a second group with the same slug violates the slug's uniqueness. */
    method CreateGroup(group: Group) returns (added: bool)
      requires Valid()
      modifies this
      ensures Valid()
      ensures added == (group.slug !in old(groups))
      ensures groups == if added then old(groups)[group.slug := group] else old(groups)
      ensures users == old(users) && posts == old(posts) && comments == old(comments) && follows == old(follows)
    {
      added := group.slug !in groups;
      if added {
        groups := groups[group.slug := group];
      }
    }

    /**
     * post_create: a valid form adds exactly one post, at the front, written
     * by the acting user, and redirects to that user's profile.
     */
    method PostCreate(actor: Option<UserName>, data: Option<PostFormData>) returns (r: Response)
      requires Valid()
      requires actor.Some? ==> actor.value in users
      modifies this
      ensures Valid()
      ensures actor.None? ==> r == LoginRedirect && unchanged(this)
      ensures actor.Some? && ValidatePostForm(data, old(groups)).Failure? ==> r == ShowForm && unchanged(this)
      ensures actor.Some? && ValidatePostForm(data, old(groups)).Success? ==>
        && r == Redirect(ProfilePage(actor.value))
        && posts == [Post(old(nextPostId), data.value.text, old(clock), actor.value, data.value.group)] + old(posts)
        && users == old(users) && groups == old(groups) && comments == old(comments) && follows == old(follows)
    {
      if actor.None? {
        return LoginRedirect;
      }
      if ValidatePostForm(data, groups).Failure? {
        return ShowForm;
      }
      var form := data.value;
      var post := Post(nextPostId, form.text, clock, actor.value, form.group);
      ghost var oldPosts := posts;
      posts := [post] + posts;
      PrependKeepsOrder(post, oldPosts);
      assert PostIds(oldPosts) <= PostIds(posts) by {
        forall x | x in PostIds(oldPosts) ensures x in PostIds(posts) {
          var q :| q in oldPosts && q.id == x;
          assert q in posts;
        }
      }
      clock := clock + 1;
      nextPostId := nextPostId + 1;
      r := Redirect(ProfilePage(actor.value));
    }

    /**
     * post_edit: only the author may edit. Anyone else is redirected to the
     * post's page and nothing changes; a valid form from the author replaces
     * the post's text and group in place.
     */
    method PostEdit(actor: Option<UserName>, id: PostId, data: Option<PostFormData>) returns (r: Response)
      requires Valid()
      requires actor.Some? ==> actor.value in users
      modifies this
      ensures Valid()
      ensures actor.None? ==> r == LoginRedirect && unchanged(this)
      ensures actor.Some? && FindPost(old(posts), id).None? ==> r == PageNotFound && unchanged(this)
      ensures actor.Some? && FindPost(old(posts), id).Some? && FindPost(old(posts), id).value.author != actor.value ==>
        r == Redirect(PostDetailPage(id)) && unchanged(this)
      ensures actor.Some? && FindPost(old(posts), id).Some? && FindPost(old(posts), id).value.author == actor.value ==>
        if ValidatePostForm(data, old(groups)).Failure? then r == ShowForm && unchanged(this)
        else
          && r == Redirect(PostDetailPage(id))
          && posts == ReplacePost(old(posts), id, data.value.text, data.value.group)
          && users == old(users) && groups == old(groups) && comments == old(comments) && follows == old(follows)
          && clock == old(clock) && nextPostId == old(nextPostId) && nextCommentId == old(nextCommentId)
    {
      if actor.None? {
        return LoginRedirect;
      }
      var found := FindPost(posts, id);
      if found.None? {
        return PageNotFound;
      }
      if found.value.author != actor.value {
        return Redirect(PostDetailPage(id));
      }
      if ValidatePostForm(data, groups).Failure? {
        return ShowForm;
      }
      var form := data.value;
      EditKeepsConsistency(posts, comments, users, groups, clock, nextPostId, nextCommentId, id, form.text, form.group);
      posts := ReplacePost(posts, id, form.text, form.group);
      r := Redirect(PostDetailPage(id));
    }

    /**
     * add_comment: a valid form appends one comment by the acting user on the
     * post; valid or not, the answer is a redirect to the post's page.
     */
    method AddComment(actor: Option<UserName>, id: PostId, data: Option<CommentFormData>) returns (r: Response)
      requires Valid()
      requires actor.Some? ==> actor.value in users
      modifies this
      ensures Valid()
      ensures actor.None? ==> r == LoginRedirect && unchanged(this)
      ensures actor.Some? && id !in PostIds(old(posts)) ==> r == PageNotFound && unchanged(this)
      ensures actor.Some? && id in PostIds(old(posts)) ==>
        && r == Redirect(PostDetailPage(id))
        && (ValidateCommentForm(data).Failure? ==> unchanged(this))
        && (ValidateCommentForm(data).Success? ==>
              && comments == old(comments) + [Comment(old(nextCommentId), id, actor.value, data.value.text, old(clock))]
              && users == old(users) && groups == old(groups) && posts == old(posts) && follows == old(follows))
    {
      if actor.None? {
        return LoginRedirect;
      }
      if FindPost(posts, id).None? {
        return PageNotFound;
      }
      if ValidateCommentForm(data).Success? {
        comments := comments + [Comment(nextCommentId, id, actor.value, data.value.text, clock)];
        clock := clock + 1;
        nextCommentId := nextCommentId + 1;
      }
      r := Redirect(PostDetailPage(id));
    }

    /** profile_follow: creates the pair unless it exists or is a self-follow; redirects to the profile. */
    method ProfileFollow(actor: Option<UserName>, username: UserName) returns (r: Response)
      requires Valid()
      requires actor.Some? ==> actor.value in users
      modifies this
      ensures Valid()
      ensures actor.None? ==> r == LoginRedirect && unchanged(this)
      ensures actor.Some? && username !in old(users) ==> r == PageNotFound && unchanged(this)
      ensures actor.Some? && username in old(users) ==>
        && r == Redirect(ProfilePage(username))
        && follows == Followed(old(follows), actor.value, username)
        && users == old(users) && groups == old(groups) && posts == old(posts) && comments == old(comments)
        && clock == old(clock) && nextPostId == old(nextPostId) && nextCommentId == old(nextCommentId)
    {
      if actor.None? {
        return LoginRedirect;
      }
      if username !in users {
        return PageNotFound;
      }
      follows := Followed(follows, actor.value, username);
      r := Redirect(ProfilePage(username));
    }

    /** profile_unfollow: deletes the pair if it exists; redirects to the profile. */
    method ProfileUnfollow(actor: Option<UserName>, username: UserName) returns (r: Response)
      requires Valid()
      requires actor.Some? ==> actor.value in users
      modifies this
      ensures Valid()
      ensures actor.None? ==> r == LoginRedirect && unchanged(this)
      ensures actor.Some? && username !in old(users) ==> r == PageNotFound && unchanged(this)
      ensures actor.Some? && username in old(users) ==>
        && r == Redirect(ProfilePage(username))
        && follows == Unfollowed(old(follows), actor.value, username)
        && users == old(users) && groups == old(groups) && posts == old(posts) && comments == old(comments)
        && clock == old(clock) && nextPostId == old(nextPostId) && nextCommentId == old(nextCommentId)
    {
      if actor.None? {
        return LoginRedirect;
      }
      if username !in users {
        return PageNotFound;
      }
      follows := Unfollowed(follows, actor.value, username);
      r := Redirect(ProfilePage(username));
    }

    /** Deleting a group sets the group of its posts to none and deletes nothing else. */
    method DeleteGroup(slug: Slug)
      requires Valid()
      modifies this
      ensures Valid()
      ensures groups == old(groups) - {slug}
      ensures posts == ClearGroup(old(posts), slug)
      ensures users == old(users) && comments == old(comments) && follows == old(follows)
    {
      GroupDeletionKeepsConsistency(posts, comments, users, groups, clock, nextPostId, nextCommentId, slug);
      groups := groups - {slug};
      posts := ClearGroup(posts, slug);
    }

    /** Deleting a post deletes its comments with it. */
    method DeletePost(id: PostId)
      requires Valid()
      modifies this
      ensures Valid()
      ensures posts == Filter(old(posts), IdIsNot(id))
      ensures comments == Filter(old(comments), NotOnPost(id))
      ensures users == old(users) && groups == old(groups) && follows == old(follows)
    {
      PostDeletionKeepsConsistency(posts, comments, users, groups, clock, nextPostId, nextCommentId, id);
      posts := Filter(posts, IdIsNot(id));
      comments := Filter(comments, NotOnPost(id));
    }

    /**
     * Deleting a user deletes their posts, every comment they wrote or that
     * was on one of their posts, and every follow pair they are part of.
     */
    method DeleteUser(name: UserName)
      requires Valid()
      modifies this
      ensures Valid()
      ensures users == old(users) - {name}
      ensures posts == Filter(old(posts), NotByAuthor(name))
      ensures comments == Filter(old(comments), SurvivesUser(name, PostIds(posts)))
      ensures follows == FollowsWithout(old(follows), name)
      ensures groups == old(groups)
    {
      UserDeletionKeepsConsistency(posts, comments, users, groups, clock, nextPostId, nextCommentId, name);
      var keptPosts := Filter(posts, NotByAuthor(name));
      var keptComments := Filter(comments, SurvivesUser(name, PostIds(keptPosts)));
      var keptFollows := FollowsWithout(follows, name);
      UserDeletionKeepsFollows(follows, users, name);
      users, posts, comments, follows := users - {name}, keptPosts, keptComments, keptFollows;
    }
  }

  lemma EditKeepsConsistency(posts: seq<Post>, comments: seq<Comment>, users: set<UserName>, groups: map<Slug, Group>,
                              clock: int, nextPostId: PostId, nextCommentId: CommentId,
                              id: PostId, text: string, group: Option<Slug>)
    requires PostsConsistent(posts, users, groups, clock, nextPostId)
    requires CommentsConsistent(comments, posts, users, clock, nextCommentId)
    requires group.Some? ==> group.value in groups
    ensures PostsConsistent(ReplacePost(posts, id, text, group), users, groups, clock, nextPostId)
    ensures CommentsConsistent(comments, ReplacePost(posts, id, text, group), users, clock, nextCommentId)
  {
    var edited := ReplacePost(posts, id, text, group);
    SameKeysSameOrder(posts, edited);
    forall p | p in edited
      ensures p.author in users && (p.group.Some? ==> p.group.value in groups) && p.pubDate < clock && p.id < nextPostId
    {
      var k :| 0 <= k < |edited| && edited[k] == p;
      assert posts[k] in posts;
    }
  }

  lemma GroupDeletionKeepsConsistency(posts: seq<Post>, comments: seq<Comment>, users: set<UserName>, groups: map<Slug, Group>,
                                      clock: int, nextPostId: PostId, nextCommentId: CommentId, slug: Slug)
    requires PostsConsistent(posts, users, groups, clock, nextPostId)
    requires CommentsConsistent(comments, posts, users, clock, nextCommentId)
    ensures PostsConsistent(ClearGroup(posts, slug), users, groups - {slug}, clock, nextPostId)
    ensures CommentsConsistent(comments, ClearGroup(posts, slug), users, clock, nextCommentId)
  {
    var cleared := ClearGroup(posts, slug);
    SameKeysSameOrder(posts, cleared);
    forall p | p in cleared
      ensures p.author in users && (p.group.Some? ==> p.group.value in groups - {slug}) && p.pubDate < clock && p.id < nextPostId
    {
      var k :| 0 <= k < |cleared| && cleared[k] == p;
      assert posts[k] in posts;
    }
  }

  lemma PostDeletionKeepsConsistency(posts: seq<Post>, comments: seq<Comment>, users: set<UserName>, groups: map<Slug, Group>,
                                     clock: int, nextPostId: PostId, nextCommentId: CommentId, id: PostId)
    requires PostsConsistent(posts, users, groups, clock, nextPostId)
    requires CommentsConsistent(comments, posts, users, clock, nextCommentId)
    ensures PostsConsistent(Filter(posts, IdIsNot(id)), users, groups, clock, nextPostId)
    ensures CommentsConsistent(Filter(comments, NotOnPost(id)), Filter(posts, IdIsNot(id)), users, clock, nextCommentId)
  {
    var kept := Filter(posts, IdIsNot(id));
    FilterPairwise(posts, IdIsNot(id), NewerOrSame);
    FilterPairwise(posts, IdIsNot(id), DifferentIds);
    forall c | c in Filter(comments, NotOnPost(id)) ensures c.post in PostIds(kept) {
      var q :| q in posts && q.id == c.post;
      assert q in kept;
    }
  }

  lemma UserDeletionKeepsConsistency(posts: seq<Post>, comments: seq<Comment>, users: set<UserName>, groups: map<Slug, Group>,
                                     clock: int, nextPostId: PostId, nextCommentId: CommentId, name: UserName)
    requires PostsConsistent(posts, users, groups, clock, nextPostId)
    requires CommentsConsistent(comments, posts, users, clock, nextCommentId)
    ensures PostsConsistent(Filter(posts, NotByAuthor(name)), users - {name}, groups, clock, nextPostId)
    ensures var kept := Filter(posts, NotByAuthor(name));
      CommentsConsistent(Filter(comments, SurvivesUser(name, PostIds(kept))), kept, users - {name}, clock, nextCommentId)
  {
    FilterPairwise(posts, NotByAuthor(name), NewerOrSame);
    FilterPairwise(posts, NotByAuthor(name), DifferentIds);
  }

  lemma UserDeletionKeepsFollows(follows: set<Follow>, users: set<UserName>, name: UserName)
    requires FollowsConsistent(follows, users)
    ensures FollowsConsistent(FollowsWithout(follows, name), users - {name})
  {
  }

  /** A post dated after every post of a newest-first list, with a fresh id, may go in front. */
  lemma PrependKeepsOrder(p: Post, posts: seq<Post>)
    requires NewestFirst(posts) && UniqueIds(posts)
    requires forall q :: q in posts ==> q.pubDate < p.pubDate && q.id < p.id
    ensures NewestFirst([p] + posts) && UniqueIds([p] + posts)
  {
    var s := [p] + posts;
    forall i, j | 0 <= i < j < |s| ensures NewerOrSame(s[i], s[j]) && DifferentIds(s[i], s[j]) {
      if i == 0 {
        assert s[j] == posts[j - 1] && posts[j - 1] in posts;
      } else {
        assert s[i] == posts[i - 1] && s[j] == posts[j - 1];
        assert NewerOrSame(posts[i - 1], posts[j - 1]) && DifferentIds(posts[i - 1], posts[j - 1]);
      }
    }
  }
}
