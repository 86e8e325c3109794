/**
 * The read-only views: the global feed, a group's feed, an author's profile,
 * a post's detail page and the follow feed. Each is a function of the store's
 * contents and of the viewer's identity (None for an anonymous visitor).
 */
module Feeds {
  import opened Models
  import opened Pagination
  import opened ViewResults

  datatype GroupContext = GroupContext(group: Group, page: Page<Post>)

  /** `following` is present only for an authenticated viewer. */
  datatype ProfileContext = ProfileContext(author: UserName, page: Page<Post>, postCount: nat, following: Option<bool>)

  datatype DetailContext = DetailContext(post: Post, postCount: nat, comments: seq<Comment>)

  lemma FilterNewestFirst(posts: seq<Post>, keep: Post -> bool)
    ensures NewestFirst(posts) ==> NewestFirst(Filter(posts, keep))
  {
    if NewestFirst(posts) {
      FilterPairwise(posts, keep, NewerOrSame);
    }
  }

  lemma PaginateNewestFirst(posts: seq<Post>, requested: Option<int>)
    ensures NewestFirst(posts) ==> NewestFirst(Paginate(posts, requested).items)
  {
    if NewestFirst(posts) {
      PaginatePairwise(posts, requested, NewerOrSame);
    }
  }

  /** The posts of a group, newest first. */
  function GroupPostList(posts: seq<Post>, slug: Slug): (r: seq<Post>)
    ensures forall p :: p in r <==> p in posts && p.group == Some(slug)
    ensures forall p :: multiset(r)[p] == if p.group == Some(slug) then multiset(posts)[p] else 0
    ensures NewestFirst(posts) ==> NewestFirst(r)
  {
    FilterNewestFirst(posts, InGroup(slug));
    FilterMultiset(posts, InGroup(slug));
    Filter(posts, InGroup(slug))
  }

  /** The posts of an author, newest first. */
  function AuthorPostList(posts: seq<Post>, author: UserName): (r: seq<Post>)
    ensures forall p :: p in r <==> p in posts && p.author == author
    ensures forall p :: multiset(r)[p] == if p.author == author then multiset(posts)[p] else 0
    ensures NewestFirst(posts) ==> NewestFirst(r)
  {
    FilterNewestFirst(posts, ByAuthor(author));
    FilterMultiset(posts, ByAuthor(author));
    Filter(posts, ByAuthor(author))
  }

  /** The posts of the authors the viewer follows, newest first. */
  function FollowPostList(posts: seq<Post>, follows: set<Follow>, viewer: UserName): (r: seq<Post>)
    ensures forall p :: p in r <==> p in posts && Follow(viewer, p.author) in follows
    ensures forall p :: multiset(r)[p] == if Follow(viewer, p.author) in follows then multiset(posts)[p] else 0
    ensures NewestFirst(posts) ==> NewestFirst(r)
  {
    FilterNewestFirst(posts, ByFollowedAuthor(follows, viewer));
    FilterMultiset(posts, ByFollowedAuthor(follows, viewer));
    Filter(posts, ByFollowedAuthor(follows, viewer))
  }

  /** index: every post, paginated. */
  function Index(posts: seq<Post>, requested: Option<int>): (r: Page<Post>)
    ensures r == Paginate(posts, requested)
    ensures r.count == |posts|
    ensures forall p :: p in r.items ==> p in posts
    ensures NewestFirst(posts) ==> NewestFirst(r.items)
  {
    PaginateNewestFirst(posts, requested);
    Paginate(posts, requested)
  }

  /** group_posts: 404 for an unknown slug, otherwise the group and its posts, paginated. */
  function GroupPosts(groups: map<Slug, Group>, posts: seq<Post>, slug: Slug, requested: Option<int>): (r: Outcome<GroupContext>)
    ensures r.NotFound? <==> slug !in groups
    ensures !r.LoginRequired?
    ensures r.Ok? ==> r.value.group == groups[slug]
    ensures r.Ok? ==> r.value.page == Paginate(GroupPostList(posts, slug), requested)
  {
    if slug !in groups then NotFound
    else Ok(GroupContext(groups[slug], Paginate(GroupPostList(posts, slug), requested)))
  }

  /** Every post a group page shows belongs to that group, and the page counts exactly the group's posts. */
  lemma GroupPageHoldsOnlyGroupPosts(groups: map<Slug, Group>, posts: seq<Post>, slug: Slug, requested: Option<int>)
    requires slug in groups
    ensures var r := GroupPosts(groups, posts, slug, requested);
      r.Ok? && r.value.page.count == |GroupPostList(posts, slug)| &&
      forall p :: p in r.value.page.items ==> p in posts && p.group == Some(slug)
  {
  }

  /**
   * profile: 404 for an unknown user; otherwise the author's posts, paginated,
   * their post count and, for an authenticated viewer only, whether the viewer
   * follows the author.
   */
  function Profile(users: set<UserName>, posts: seq<Post>, follows: set<Follow>, username: UserName,
                   viewer: Option<UserName>, requested: Option<int>): (r: Outcome<ProfileContext>)
    ensures r.NotFound? <==> username !in users
    ensures !r.LoginRequired?
    ensures r.Ok? ==> r.value.author == username
    ensures r.Ok? ==> r.value.page == Paginate(AuthorPostList(posts, username), requested)
    ensures r.Ok? ==> r.value.postCount == |AuthorPostList(posts, username)| == r.value.page.count
    ensures r.Ok? ==> (r.value.following.Some? <==> viewer.Some?)
    ensures r.Ok? && viewer.Some? ==> (r.value.following.value <==> Follow(viewer.value, username) in follows)
  {
    if username !in users then NotFound
    else
      var list := AuthorPostList(posts, username);
      var following := if viewer.Some? then Some(Follow(viewer.value, username) in follows) else None;
      Ok(ProfileContext(username, Paginate(list, requested), |list|, following))
  }

  /** post_detail: 404 for an unknown id; otherwise the post, its author's post count and its comments. */
  function PostDetail(posts: seq<Post>, comments: seq<Comment>, id: PostId): (r: Outcome<DetailContext>)
    ensures r.NotFound? <==> id !in PostIds(posts)
    ensures !r.LoginRequired?
    ensures r.Ok? ==> r.value.post in posts && r.value.post.id == id
    ensures r.Ok? ==> r.value.postCount == |AuthorPostList(posts, r.value.post.author)|
    ensures r.Ok? ==> forall c :: c in r.value.comments <==> c in comments && c.post == id
  {
    match FindPost(posts, id)
    case None => NotFound
    case Some(post) =>
      Ok(DetailContext(post, |AuthorPostList(posts, post.author)|, Filter(comments, OnPost(id))))
  }

  /** follow_index: the login redirect for an anonymous viewer, otherwise the follow feed, paginated. */
  function FollowIndex(posts: seq<Post>, follows: set<Follow>, viewer: Option<UserName>, requested: Option<int>): (r: Outcome<Page<Post>>)
    ensures r.LoginRequired? <==> viewer.None?
    ensures !r.NotFound?
    ensures r.Ok? ==> r.value == Paginate(FollowPostList(posts, follows, viewer.value), requested)
  {
    if viewer.None? then LoginRequired
    else Ok(Paginate(FollowPostList(posts, follows, viewer.value), requested))
  }

  /** A viewer who follows nobody has an empty follow feed. */
  lemma {:induction false} FollowFeedEmptyWithoutFollows(posts: seq<Post>, follows: set<Follow>, viewer: UserName)
    requires forall f :: f in follows ==> f.user != viewer
    ensures FollowPostList(posts, follows, viewer) == []
  {
    if posts != [] {
      assert posts == [posts[0]] + posts[1..];
      FollowFeedEmptyWithoutFollows(posts[1..], follows, viewer);
      FilterCons(posts[0], posts[1..], ByFollowedAuthor(follows, viewer));
    }
  }

  /** The follow-feed size change of a new follow pair, stated on Filter itself. */
  lemma {:induction false} FollowAddsAuthorsPostsInFilter(posts: seq<Post>, follows: set<Follow>, viewer: UserName, author: UserName)
    requires Follow(viewer, author) !in follows
    ensures |Filter(posts, ByFollowedAuthor(follows + {Follow(viewer, author)}, viewer))|
         == |Filter(posts, ByFollowedAuthor(follows, viewer))| + |Filter(posts, ByAuthor(author))|
  {
    if posts != [] {
      var h, t := posts[0], posts[1..];
      assert posts == [h] + t;
      FollowAddsAuthorsPostsInFilter(t, follows, viewer, author);
      FilterCons(h, t, ByFollowedAuthor(follows + {Follow(viewer, author)}, viewer));
      FilterCons(h, t, ByFollowedAuthor(follows, viewer));
      FilterCons(h, t, ByAuthor(author));
    }
  }

  /**
   * Following a new author adds exactly that author's posts to the follow
   * feed: its length grows by the author's post count.
   */
  lemma FollowAddsAuthorsPosts(posts: seq<Post>, follows: set<Follow>, viewer: UserName, author: UserName)
    requires Follow(viewer, author) !in follows
    ensures |FollowPostList(posts, follows + {Follow(viewer, author)}, viewer)|
         == |FollowPostList(posts, follows, viewer)| + |AuthorPostList(posts, author)|
  {
    FollowAddsAuthorsPostsInFilter(posts, follows, viewer, author);
  }

  /** Unfollowing an author removes exactly that author's posts from the follow feed. */
  lemma UnfollowRemovesAuthorsPosts(posts: seq<Post>, follows: set<Follow>, viewer: UserName, author: UserName)
    requires Follow(viewer, author) in follows
    ensures |FollowPostList(posts, follows - {Follow(viewer, author)}, viewer)|
         == |FollowPostList(posts, follows, viewer)| - |AuthorPostList(posts, author)|
    ensures forall p :: p in FollowPostList(posts, follows - {Follow(viewer, author)}, viewer) ==> p.author != author
  {
    var before := follows - {Follow(viewer, author)};
    assert before + {Follow(viewer, author)} == follows;
    FollowAddsAuthorsPosts(posts, before, viewer, author);
  }

  /**
   * A new post goes to the front of the follow feed of every follower of its
   * author, and leaves every other viewer's feed as it was.
   */
  lemma NewPostHeadsFollowFeed(p: Post, posts: seq<Post>, follows: set<Follow>, viewer: UserName)
    ensures Follow(viewer, p.author) in follows ==>
      FollowPostList([p] + posts, follows, viewer) == [p] + FollowPostList(posts, follows, viewer)
    ensures Follow(viewer, p.author) !in follows ==>
      FollowPostList([p] + posts, follows, viewer) == FollowPostList(posts, follows, viewer)
  {
    FilterCons(p, posts, ByFollowedAuthor(follows, viewer));
  }

  lemma ReplaceAbsentPost(posts: seq<Post>, id: PostId, text: string, group: Option<Slug>)
    requires forall q :: q in posts ==> q.id != id
    ensures ReplacePost(posts, id, text, group) == posts
  {
    var r := ReplacePost(posts, id, text, group);
    forall i | 0 <= i < |posts| ensures r[i] == posts[i] {
      assert posts[i] in posts;
    }
  }

  lemma UniqueIdsTail(posts: seq<Post>)
    requires UniqueIds(posts) && posts != []
    ensures UniqueIds(posts[1..])
    ensures forall q :: q in posts[1..] ==> q.id != posts[0].id
  {
    var t := posts[1..];
    forall a, b | 0 <= a < b < |t| ensures DifferentIds(t[a], t[b]) {
      assert t[a] == posts[a + 1] && t[b] == posts[b + 1];
    }
    forall q | q in t ensures q.id != posts[0].id {
      var k :| 0 <= k < |t| && t[k] == q;
      assert DifferentIds(posts[0], posts[k + 1]);
    }
  }

  lemma ReplacePostCons(h: Post, t: seq<Post>, id: PostId, text: string, group: Option<Slug>)
    ensures ReplacePost([h] + t, id, text, group)
         == [if h.id == id then h.(text := text, group := group) else h] + ReplacePost(t, id, text, group)
  {
    assert ([h] + t)[1..] == t;
  }

  lemma GroupPostListCons(h: Post, t: seq<Post>, slug: Slug)
    ensures |GroupPostList([h] + t, slug)| == (if h.group == Some(slug) then 1 else 0) + |GroupPostList(t, slug)|
  {
    FilterCons(h, t, InGroup(slug));
  }

  /** Editing the first post of a list whose other posts carry other ids. */
  lemma EditAtHead(h: Post, t: seq<Post>, text: string, group: Option<Slug>, slug: Slug)
    requires forall q :: q in t ==> q.id != h.id
    ensures |Filter(ReplacePost([h] + t, h.id, text, group), InGroup(slug))|
         == |Filter(t, InGroup(slug))| + (if group == Some(slug) then 1 else 0)
  {
    ReplacePostCons(h, t, h.id, text, group);
    ReplaceAbsentPost(t, h.id, text, group);
    FilterCons(h.(text := text, group := group), t, InGroup(slug));
  }

  /** Editing a later post leaves the first one as it is. */
  lemma EditBelowHead(h: Post, t: seq<Post>, id: PostId, text: string, group: Option<Slug>, slug: Slug)
    requires h.id != id
    ensures |Filter(ReplacePost([h] + t, id, text, group), InGroup(slug))|
         == (if h.group == Some(slug) then 1 else 0) + |Filter(ReplacePost(t, id, text, group), InGroup(slug))|
  {
    ReplacePostCons(h, t, id, text, group);
    FilterCons(h, ReplacePost(t, id, text, group), InGroup(slug));
  }

  /** The size of a group's filtered post list after an edit, stated on Filter itself. */
  lemma {:induction false} EditMovesPostInGroupFilter(posts: seq<Post>, i: nat, text: string, group: Option<Slug>, slug: Slug)
    requires UniqueIds(posts)
    requires i < |posts|
    ensures |Filter(ReplacePost(posts, posts[i].id, text, group), InGroup(slug))|
         == |Filter(posts, InGroup(slug))| - (if posts[i].group == Some(slug) then 1 else 0)
                                           + (if group == Some(slug) then 1 else 0)
  {
    var h, t := posts[0], posts[1..];
    assert posts == [h] + t;
    UniqueIdsTail(posts);
    FilterCons(h, t, InGroup(slug));
    if i == 0 {
      EditAtHead(h, t, text, group, slug);
    } else {
      assert DifferentIds(posts[0], posts[i]);
      assert t[i - 1] == posts[i];
      EditBelowHead(h, t, posts[i].id, text, group, slug);
      EditMovesPostInGroupFilter(t, i - 1, text, group, slug);
    }
  }

  /**
   * Editing a post moves it between group feeds: every group feed's size
   * changes by exactly that move, out of the old group and into the new one.
   */
  lemma EditMovesPostBetweenGroupFeeds(posts: seq<Post>, i: nat, text: string, group: Option<Slug>, slug: Slug)
    requires UniqueIds(posts)
    requires i < |posts|
    ensures |GroupPostList(ReplacePost(posts, posts[i].id, text, group), slug)|
         == |GroupPostList(posts, slug)| - (if posts[i].group == Some(slug) then 1 else 0)
                                         + (if group == Some(slug) then 1 else 0)
  {
    EditMovesPostInGroupFilter(posts, i, text, group, slug);
  }

  /** After an edit the post, in its new state and at its old place, is in exactly its new group's feed. */
  lemma EditedPostInNewGroupFeed(posts: seq<Post>, i: nat, text: string, group: Option<Slug>, slug: Slug)
    requires i < |posts|
    ensures var edited := ReplacePost(posts, posts[i].id, text, group);
      edited[i] == posts[i].(text := text, group := group) &&
      (edited[i] in GroupPostList(edited, slug) <==> group == Some(slug))
  {
    var edited := ReplacePost(posts, posts[i].id, text, group);
    assert edited[i] in edited;
  }

  lemma ClearGroupCons(h: Post, t: seq<Post>, slug: Slug)
    ensures ClearGroup([h] + t, slug) == [if h.group == Some(slug) then h.(group := None) else h] + ClearGroup(t, slug)
  {
    assert ([h] + t)[1..] == t;
  }

  /** The feeds of all groups other than the deleted one are unchanged. */
  lemma {:induction false} GroupDeletionKeepsOtherFeeds(posts: seq<Post>, slug: Slug, other: Slug)
    requires other != slug
    ensures GroupPostList(ClearGroup(posts, slug), other) == GroupPostList(posts, other)
  {
    if posts != [] {
      var h, t := posts[0], posts[1..];
      assert posts == [h] + t;
      GroupDeletionKeepsOtherFeeds(t, slug, other);
      ClearGroupCons(h, t, slug);
      FilterCons(if h.group == Some(slug) then h.(group := None) else h, ClearGroup(t, slug), InGroup(other));
      FilterCons(h, t, InGroup(other));
    }
  }

  /**
   * Deleting a group deletes no post: every post stays, with its id, and the
   * deleted group's feed is empty.
   */
  lemma GroupDeletionKeepsPosts(posts: seq<Post>, slug: Slug)
    ensures |ClearGroup(posts, slug)| == |posts|
    ensures PostIds(ClearGroup(posts, slug)) == PostIds(posts)
    ensures GroupPostList(ClearGroup(posts, slug), slug) == []
  {
    SameKeysSameOrder(posts, ClearGroup(posts, slug));
    FilterNone(ClearGroup(posts, slug), InGroup(slug));
  }
}
