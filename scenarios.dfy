/**
 * Client code replaying the repository's own test scenarios against the
 * store's contracts: what a caller can conclude from the specifications
 * alone.
 */
module Scenarios {
  import opened Models
  import opened Forms
  import opened Pagination
  import opened Feeds
  import opened ViewResults
  import opened Actions
  import opened PageCache

  /** A store with two registered users and one post by the first. */
  method Setup() returns (s: Store, first: Post)
    ensures fresh(s) && s.Valid()
    ensures s.users == {"author", "subscriber"} && s.follows == {}
    ensures s.posts == [first] && first.author == "author"
  {
    s := new Store();
    var _ := s.AddUser("author");
    var _ := s.AddUser("subscriber");
    var _ := s.PostCreate(Some("author"), Some(PostFormData("first", None)));
    first := s.posts[0];
  }

  /** The follow feed is empty before following, holds the post after, and is empty again after unfollowing. */
  method FollowFeedScenario()
  {
    var s, first := Setup();
    FollowFeedEmptyWithoutFollows(s.posts, s.follows, "subscriber");
    var feed := FollowIndex(s.posts, s.follows, Some("subscriber"), None);
    assert feed.Ok? && |feed.value.items| == 0;

    var r := s.ProfileFollow(Some("subscriber"), "author");
    assert r == Redirect(ProfilePage("author"));
    r := s.ProfileFollow(Some("subscriber"), "author");
    assert s.follows == {Follow("subscriber", "author")};
    NewPostHeadsFollowFeed(first, [], s.follows, "subscriber");
    feed := FollowIndex(s.posts, s.follows, Some("subscriber"), None);
    assert |feed.value.items| == 1;

    r := s.ProfileUnfollow(Some("subscriber"), "author");
    assert s.follows == {};
    FollowFeedEmptyWithoutFollows(s.posts, s.follows, "subscriber");
    feed := FollowIndex(s.posts, s.follows, Some("subscriber"), None);
    assert |feed.value.items| == 0;
  }

  /** The subscriber follows the author, who then writes a second post. */
  method FollowThenPost() returns (s: Store, first: Post, second: Post)
    ensures fresh(s) && s.Valid()
    ensures s.posts == [second, first] && first.author == "author" && second.author == "author"
    ensures s.follows == {Follow("subscriber", "author")}
  {
    s, first := Setup();
    var _ := s.ProfileFollow(Some("subscriber"), "author");
    var data := Some(PostFormData("second", None));
    assert ValidatePostForm(data, s.groups).Success?;
    var _ := s.PostCreate(Some("author"), data);
    second := s.posts[0];
  }

  /** A new post by a followed author grows the follower's feed by one, at the front. */
  method NewPostScenario()
  {
    var s, first, second := FollowThenPost();
    ghost var follows := s.follows;
    assert FollowPostList([second, first], follows, "subscriber") == [second, first] by {
      assert FollowPostList([], follows, "subscriber") == [];
      NewPostHeadsFollowFeed(first, [], follows, "subscriber");
      assert [first] + [] == [first];
      NewPostHeadsFollowFeed(second, [first], follows, "subscriber");
      assert [second] + [first] == [second, first];
    }
    ShortListIsOnePage([second, first], None);
    var feed := FollowIndex(s.posts, s.follows, Some("subscriber"), None);
    assert feed.value.items == [second, first];
  }

  /** Two users, two groups, and one post by the author in the first group. */
  method EditSetup() returns (s: Store, post: Post)
    ensures fresh(s) && s.Valid()
    ensures s.users == {"author", "stranger"}
    ensures "test-slug" in s.groups && "test-slug-slug" in s.groups
    ensures s.posts == [post] && post.author == "author" && post.group == Some("test-slug")
  {
    s := new Store();
    var _ := s.AddUser("author");
    var _ := s.AddUser("stranger");
    var _ := s.CreateGroup(Group("Group", "test-slug", "first group"));
    var _ := s.PostCreate(Some("author"), Some(PostFormData("text", Some("test-slug"))));
    post := s.posts[0];
    var _ := s.CreateGroup(Group("Group 2", "test-slug-slug", "second group"));
  }

  /** A stranger's edit changes nothing; the author's edit moves the post to the new group. */
  method EditScenario()
  {
    var s, post := EditSetup();
    FindPostUnique(s.posts, 0);
    ghost var before := s.posts;
    var r := s.PostEdit(Some("stranger"), post.id, Some(PostFormData("vandalised", None)));
    assert r == Redirect(PostDetailPage(post.id)) && s.posts == before;

    r := s.PostEdit(Some("author"), post.id, Some(PostFormData("edited", Some("test-slug-slug"))));
    assert r == Redirect(PostDetailPage(post.id));
    assert s.posts == ReplacePost([post], post.id, "edited", Some("test-slug-slug"));
    assert |GroupPostList(s.posts, "test-slug")| == 0 && |GroupPostList(s.posts, "test-slug-slug")| == 1 by {
      EditMovesPostBetweenGroupFeeds([post], 0, "edited", Some("test-slug-slug"), "test-slug");
      EditMovesPostBetweenGroupFeeds([post], 0, "edited", Some("test-slug-slug"), "test-slug-slug");
      GroupPostListCons(post, [], "test-slug");
      GroupPostListCons(post, [], "test-slug-slug");
      assert [post] == [post] + [];
    }
    var oldGroup := GroupPosts(s.groups, s.posts, "test-slug", None);
    var newGroup := GroupPosts(s.groups, s.posts, "test-slug-slug", None);
    assert oldGroup.value.page.count == 0 && newGroup.value.page.count == 1;
  }

  /** Within the cache's lifetime a deleted post is still shown; after clearing it is gone. */
  method CacheScenario()
  {
    var s := new Store();
    var _ := s.AddUser("volodia");
    var r := s.PostCreate(Some("volodia"), Some(PostFormData("cached post", None)));
    var post := s.posts[0];
    var cache := new IndexCache(None);

    var page1 := cache.Get(0, s.posts);
    assert page1.count == 1;
    s.DeletePost(post.id);
    assert s.posts == [] by {
      FilterCons(post, [], IdIsNot(post.id));
    }
    var page2 := cache.Get(1, s.posts);
    assert page2 == page1;
    cache.Clear();
    var page3 := cache.Get(2, s.posts);
    assert page3.count == 0 && page3 != page1;
  }
}
