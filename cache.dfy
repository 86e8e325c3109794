/**
 * The page cache in front of the global feed: a rendered page is kept for a
 * fixed time after it is first served and returned unchanged until it
 * expires or the cache is cleared, whatever is written in between.
 *
 * Time is the parameter `now`, in seconds. One cache object stands for one
 * request URL, so its one entry is keyed by the page parameter it was made
 * for.
 */
module PageCache {
  import opened Models
  import opened Pagination
  import Feeds

  /** How long, in seconds, a rendered global feed is served from the cache. */
  const CACHE_SECONDS: int := 20

  datatype Entry = Entry(page: Page<Post>, expires: int)

  class IndexCache {
    const requested: Option<int>
    var entry: Option<Entry>

    constructor (requested: Option<int>)
      ensures this.requested == requested && entry == None
    {
      this.requested := requested;
      entry := None;
    }

    /** A request at time `now` is answered from the cache. */
    predicate Fresh(now: int)
      reads this
    {
      entry.Some? && now < entry.value.expires
    }

    /**
     * Serves the global feed: the cached page while it is fresh, otherwise a
     * page computed from the current posts, which is then cached.
     */
    method Get(now: int, posts: seq<Post>) returns (page: Page<Post>)
      modifies this
      ensures old(Fresh(now)) ==> page == old(entry).value.page && entry == old(entry)
      ensures !old(Fresh(now)) ==>
        page == Feeds.Index(posts, requested) && entry == Some(Entry(page, now + CACHE_SECONDS))
    {
      if Fresh(now) {
        page := entry.value.page;
      } else {
        page := Feeds.Index(posts, requested);
        entry := Some(Entry(page, now + CACHE_SECONDS));
      }
    }

    /** Empties the cache, so the next request sees the current posts. */
    method Clear()
      modifies this
      ensures entry == None
    {
      entry := None;
    }
  }
}
