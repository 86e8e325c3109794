/**
 * The records of the blog (groups, posts, comments, follow pairs), their
 * string forms and the sequence helpers every listing is built from.
 *
 * Users are identified by their user name; the user record itself belongs
 * to the identity provider and is not modelled beyond that name.
 */
module Models {

  datatype Option<T> = None | Some(value: T)

  type UserName = string
  type Slug = string
  type PostId = nat
  type CommentId = nat

  /** How many characters of a text its string form keeps. */
  const TEXT_LIMIT_FOR_STR: nat := 15

  /** A topic that posts may belong to; the slug is unique among groups. */
  datatype Group = Group(title: string, slug: Slug, description: string)

  /**
   * A post. `pubDate` is assigned by the store when the post is created and
   * never changes; `group` is a nullable reference to a group by its slug.
   * The uploaded image is not modelled.
   */
  datatype Post = Post(id: PostId, text: string, pubDate: int, author: UserName, group: Option<Slug>)

  /** A comment on the post with id `post`. */
  datatype Comment = Comment(id: CommentId, post: PostId, author: UserName, text: string, created: int)

  /** `user` receives the posts of `author` in their follow feed. */
  datatype Follow = Follow(user: UserName, author: UserName)

  function Min(a: int, b: int): int
  {
    if a <= b then a else b
  }

  /** The first TEXT_LIMIT_FOR_STR characters of a text, or all of it when shorter. */
  function Truncate(text: string): (r: string)
    ensures |r| == Min(|text|, TEXT_LIMIT_FOR_STR)
    ensures r <= text
    ensures |text| <= TEXT_LIMIT_FOR_STR ==> r == text
  {
    text[..Min(|text|, TEXT_LIMIT_FOR_STR)]
  }

  /** Post.__str__: the post's text cut to its first fifteen characters. */
  function PostStr(p: Post): (r: string)
    ensures |r| == Min(|p.text|, TEXT_LIMIT_FOR_STR)
    ensures r <= p.text
  {
    Truncate(p.text)
  }

  /**
   * Comment.__str__ as the source writes it: it subscripts the text at
   * position TEXT_LIMIT_FOR_STR instead of slicing it. For a text of at most
   * fifteen characters the subscript raises IndexError, modelled as None;
   * otherwise the result is one single character.
   */
  function CommentStrAsWritten(c: Comment): (r: Option<char>)
    ensures r.Some? <==> |c.text| > TEXT_LIMIT_FOR_STR
    ensures r.Some? ==> r.value == c.text[TEXT_LIMIT_FOR_STR]
  {
    if |c.text| > TEXT_LIMIT_FOR_STR then Some(c.text[TEXT_LIMIT_FOR_STR]) else None
  }

  /** The comment shown in the test suite, "Первый коммент", has no string form as written. */
  lemma CommentStrFailsOnShortComment()
    ensures CommentStrAsWritten(Comment(1, 1, "Neo", "Первый коммент", 0)) == None
  {
  }

  /**
   * Comment.__str__ as evidently intended, the same truncation as Post.__str__:
   * defined for every comment, and a prefix of its text.
   */
  function CommentStr(c: Comment): (r: string)
    ensures |r| == Min(|c.text|, TEXT_LIMIT_FOR_STR)
    ensures r <= c.text
  {
    Truncate(c.text)
  }

  /** Every pair of elements, taken left to right, is related by `rel`. */
  predicate Pairwise<T>(s: seq<T>, rel: (T, T) -> bool)
  {
    forall i, j :: 0 <= i < j < |s| ==> rel(s[i], s[j])
  }

  predicate NewerOrSame(a: Post, b: Post)
  {
    a.pubDate >= b.pubDate
  }

  predicate DifferentIds(a: Post, b: Post)
  {
    a.id != b.id
  }

  /** The default ordering of posts: by publication date, most recent first. */
  predicate NewestFirst(posts: seq<Post>)
  {
    Pairwise(posts, NewerOrSame)
  }

  predicate UniqueIds(posts: seq<Post>)
  {
    Pairwise(posts, DifferentIds)
  }

  function PostIds(posts: seq<Post>): set<PostId>
  {
    set p | p in posts :: p.id
  }

  /**
   * The elements of `s` that `keep` accepts, in their original order: every
   * element is kept with its multiplicity or dropped entirely.
   */
  function Filter<T(!new)>(s: seq<T>, keep: T -> bool): (r: seq<T>)
    ensures |r| <= |s|
    ensures forall x :: x in r <==> x in s && keep(x)
  {
    if s == [] then []
    else
      assert s == [s[0]] + s[1..];
      (if keep(s[0]) then [s[0]] else []) + Filter(s[1..], keep)
  }

  /** Filtering keeps every accepted element as often as it occurs, and no other. */
  lemma {:induction false} FilterMultiset<T(!new)>(s: seq<T>, keep: T -> bool)
    ensures forall x :: multiset(Filter(s, keep))[x] == if keep(x) then multiset(s)[x] else 0
  {
    if s != [] {
      FilterMultiset(s[1..], keep);
      FilterCons(s[0], s[1..], keep);
      assert s == [s[0]] + s[1..];
    }
  }

  /** Filtering a sequence with a given first element. */
  lemma FilterCons<T(!new)>(h: T, t: seq<T>, keep: T -> bool)
    ensures Filter([h] + t, keep) == (if keep(h) then [h] else []) + Filter(t, keep)
  {
    assert ([h] + t)[1..] == t;
  }

  /** Filtering a list none of whose elements is accepted gives the empty list. */
  lemma {:induction false} FilterNone<T(!new)>(s: seq<T>, keep: T -> bool)
    requires forall i :: 0 <= i < |s| ==> !keep(s[i])
    ensures Filter(s, keep) == []
  {
    if s != [] {
      FilterNone(s[1..], keep);
      FilterCons(s[0], s[1..], keep);
      assert s == [s[0]] + s[1..];
    }
  }

  /** Filtering keeps the relative order of what it keeps. */
  lemma {:induction false} FilterPairwise<T(!new)>(s: seq<T>, keep: T -> bool, rel: (T, T) -> bool)
    requires Pairwise(s, rel)
    ensures Pairwise(Filter(s, keep), rel)
  {
    if s != [] {
      var tail := s[1..];
      assert Pairwise(tail, rel) by {
        forall i, j | 0 <= i < j < |tail| ensures rel(tail[i], tail[j]) {
          assert tail[i] == s[i + 1] && tail[j] == s[j + 1];
        }
      }
      FilterPairwise(tail, keep, rel);
      var rest := Filter(tail, keep);
      if keep(s[0]) {
        var r := [s[0]] + rest;
        forall i, j | 0 <= i < j < |r| ensures rel(r[i], r[j]) {
          if i == 0 {
            assert r[j] in tail;
            var k :| 0 <= k < |tail| && tail[k] == r[j];
            assert s[k + 1] == r[j];
          } else {
            assert r[i] == rest[i - 1] && r[j] == rest[j - 1];
          }
        }
      }
    }
  }

  /** The newest-first post list with one post's text and group replaced. */
  function ReplacePost(posts: seq<Post>, id: PostId, text: string, group: Option<Slug>): (r: seq<Post>)
    ensures |r| == |posts|
    ensures forall i :: 0 <= i < |posts| ==>
      r[i] == if posts[i].id == id then posts[i].(text := text, group := group) else posts[i]
  {
    if posts == [] then []
    else
      var head := if posts[0].id == id then posts[0].(text := text, group := group) else posts[0];
      [head] + ReplacePost(posts[1..], id, text, group)
  }

  /** The post list after a group is deleted: posts that referred to it have no group. */
  function ClearGroup(posts: seq<Post>, slug: Slug): (r: seq<Post>)
    ensures |r| == |posts|
    ensures forall i :: 0 <= i < |posts| ==>
      r[i] == if posts[i].group == Some(slug) then posts[i].(group := None) else posts[i]
  {
    if posts == [] then []
    else
      var head := if posts[0].group == Some(slug) then posts[0].(group := None) else posts[0];
      [head] + ClearGroup(posts[1..], slug)
  }

  /**
   * Two post lists that agree, position by position, on ids and publication
   * dates have the same ids and the same ordering properties.
   */
  lemma SameKeysSameOrder(a: seq<Post>, b: seq<Post>)
    requires |a| == |b|
    requires forall i :: 0 <= i < |a| ==> a[i].id == b[i].id && a[i].pubDate == b[i].pubDate
    ensures PostIds(a) == PostIds(b)
    ensures NewestFirst(a) ==> NewestFirst(b)
    ensures UniqueIds(a) ==> UniqueIds(b)
  {
    forall x | x in PostIds(a) ensures x in PostIds(b) {
      var q :| q in a && q.id == x;
      var k :| 0 <= k < |a| && a[k] == q;
      assert b[k] in b && b[k].id == x;
    }
    forall x | x in PostIds(b) ensures x in PostIds(a) {
      var q :| q in b && q.id == x;
      var k :| 0 <= k < |b| && b[k] == q;
      assert a[k] in a && a[k].id == x;
    }
    if NewestFirst(a) {
      forall i, j | 0 <= i < j < |b| ensures NewerOrSame(b[i], b[j]) {
        assert NewerOrSame(a[i], a[j]);
      }
    }
    if UniqueIds(a) {
      forall i, j | 0 <= i < j < |b| ensures DifferentIds(b[i], b[j]) {
        assert DifferentIds(a[i], a[j]);
      }
    }
  }

  /** The post with the given id, if there is one. */
  function FindPost(posts: seq<Post>, id: PostId): (r: Option<Post>)
    ensures r.Some? <==> id in PostIds(posts)
    ensures r.Some? ==> r.value in posts && r.value.id == id
  {
    if posts == [] then None
    else if posts[0].id == id then Some(posts[0])
    else
      assert posts == [posts[0]] + posts[1..];
      FindPost(posts[1..], id)
  }

  /** With unique ids, the post found is the one post carrying that id. */
  lemma {:induction false} FindPostUnique(posts: seq<Post>, i: nat)
    requires UniqueIds(posts)
    requires i < |posts|
    ensures FindPost(posts, posts[i].id) == Some(posts[i])
  {
    if i > 0 {
      var tail := posts[1..];
      assert posts[0].id != posts[i].id by { assert DifferentIds(posts[0], posts[i]); }
      assert UniqueIds(tail) by {
        forall a, b | 0 <= a < b < |tail| ensures DifferentIds(tail[a], tail[b]) {
          assert tail[a] == posts[a + 1] && tail[b] == posts[b + 1];
        }
      }
      assert tail[i - 1] == posts[i];
      FindPostUnique(tail, i - 1);
    }
  }

  // Predicates handed to Filter. Each is built by one named function, so the
  // store's methods and their postconditions name the very same predicate.

  function InGroup(slug: Slug): Post -> bool
  {
    (p: Post) => p.group == Some(slug)
  }

  function ByAuthor(author: UserName): Post -> bool
  {
    (p: Post) => p.author == author
  }

  function NotByAuthor(author: UserName): Post -> bool
  {
    (p: Post) => p.author != author
  }

  function ByFollowedAuthor(follows: set<Follow>, viewer: UserName): Post -> bool
  {
    (p: Post) => Follow(viewer, p.author) in follows
  }

  function IdIsNot(id: PostId): Post -> bool
  {
    (p: Post) => p.id != id
  }

  function OnPost(id: PostId): Comment -> bool
  {
    (c: Comment) => c.post == id
  }

  function NotOnPost(id: PostId): Comment -> bool
  {
    (c: Comment) => c.post != id
  }

  /** A comment survives the deletion of a user when neither it nor its post was theirs. */
  function SurvivesUser(author: UserName, remaining: set<PostId>): Comment -> bool
  {
    (c: Comment) => c.author != author && c.post in remaining
  }
}
