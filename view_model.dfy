// The view model over the two tables (app/src/main/java/com/alex/arse/ViewModel.kt):
// the feed-record helpers, the entry check, the choice among the post queries, and
// the retention pruner, which deletes a feed's oldest posts in chunks of ten.

module ViewModel {
  import opened JavaLang
  import opened StoreData
  import opened Rows
  import opened PostDao
  import opened FeedDao

  const CHUNK_SIZE: nat := 10

  // ---------------------------------------------------------------------------
  // Feed records

  /** `getNewFeed`: a feed not yet stored, so with id 0, and no content hash. */
  function GetNewFeed(url: string, name: string, htmlUrl: string, category: string): (f: Feed)
    ensures f.id == 0 && f.contentHash == 0
    ensures f.url == url && f.name == name && f.htmlUrl == htmlUrl && f.category == category
  {
    Feed(0, url, name, htmlUrl, category, 0)
  }

  /** A new feed, once inserted, is stored under the next free id. */
  lemma NewFeedGetsNextId(t: Table, url: string, name: string, htmlUrl: string, category: string)
    requires Counted(t.rows, t.lastId) && t.lastId < MAX_ID
    ensures var r := InsertedFeed(t, GetNewFeed(url, name, htmlUrl, category));
            r.lastId == t.lastId + 1 && !HasId(t.rows, r.lastId)
            && r.rows == t.rows + [Feed(r.lastId, url, name, htmlUrl, category, 0)]
  {
  }

  /** `updateFeed(feedId, url, name, category)`: the edited record, with no site link and no hash. */
  function EditedFeed(feedId: Int32, url: string, name: string, category: string): (f: Feed)
    ensures f.id == feedId && f.url == url && f.name == name && f.category == category
    ensures f.htmlUrl == "" && f.contentHash == 0
  {
    Feed(feedId, url, name, "", category, 0)
  }

  /** `updateFeedHash(feed, newHash)`: the same feed with the new hash; the site link is reset to "". */
  function HashUpdated(feed: Feed, newHash: Int32): (f: Feed)
    ensures f == feed.(htmlUrl := "", contentHash := newHash)
  {
    Feed(feed.id, feed.url, feed.name, "", feed.category, newHash)
  }

  /** Storing the new hash of a stored feed changes that row's hash and site link and nothing else. */
  lemma HashUpdateChangesOneRow(rows: seq<Feed>, i: nat, newHash: Int32)
    requires IdsDistinct(rows) && i < |rows|
    ensures var r := UpdatedFeed(rows, HashUpdated(rows[i], newHash));
            |r| == |rows| && r[i] == rows[i].(htmlUrl := "", contentHash := newHash)
            && forall j | 0 <= j < |rows| && j != i :: r[j] == rows[j]
  {
  }

  /** The hash stored last is the one that stays. */
  lemma HashUpdateTwice(rows: seq<Feed>, feed: Feed, h1: Int32, h2: Int32)
    ensures UpdatedFeed(UpdatedFeed(rows, HashUpdated(feed, h1)), HashUpdated(feed, h2))
         == UpdatedFeed(rows, HashUpdated(feed, h2))
  {
  }

  /** `isFeedEntryValid`: the url and the name must both be non-blank; the category is not looked at. */
  function IsFeedEntryValid(url: string, name: string, category: string): (r: bool)
    ensures r <==> Trim(url) != [] && Trim(name) != []
  {
    BlankTrimsToEmpty(url);
    BlankTrimsToEmpty(name);
    if IsBlank(url) || IsBlank(name) then false else true
  }

  /** A string is blank exactly when trimming leaves nothing. */
  lemma BlankTrimsToEmpty(s: string)
    ensures IsBlank(s) <==> Trim(s) == []
  {
    var i, j := TrimSlices(s);
    if !IsBlank(s) {
      var k :| 0 <= k < |s| && !IsWhitespace(s[k]);
      if i <= k < j {
        assert Trim(s)[k - i] == s[k];
      }
    }
  }

  // ---------------------------------------------------------------------------
  // Query selection

  /**
   * `retrievePostsInFeeds(feedIds, include_read, ascending)`: one of the four list
   * queries, unread posts in ascending order unless asked otherwise.
   */
  function PostsInFeeds(rows: seq<Post>, feedIds: seq<Int32>, includeRead: bool := false, ascending: bool := true): (r: seq<Post>)
    ensures multiset(r) == multiset(Matching(rows, feedIds, !includeRead))
    ensures Sorted(r, Timestamp, Ascending(ascending))
  {
    if includeRead then
      if ascending then Select(rows, feedIds, false, true) else Select(rows, feedIds, false, false)
    else
      if ascending then Select(rows, feedIds, true, true) else Select(rows, feedIds, true, false)
  }

  // ---------------------------------------------------------------------------
  // Pruning

  /** Kotlin's `chunked(size)`: consecutive windows of `size` elements, the last one possibly shorter. */
  function Chunked<T>(s: seq<T>, size: nat): (r: seq<seq<T>>)
    requires size > 0
    ensures Flatten(r) == s
    ensures forall i | 0 <= i < |r| :: 1 <= |r[i]| <= size
    ensures forall i | 0 <= i < |r| - 1 :: |r[i]| == size
  {
    if s == [] then []
    else if |s| <= size then [s]
    else
      var rest := Chunked(s[size..], size);
      assert s == s[..size] + s[size..];
      [s[..size]] + rest
  }

  function Flatten<T>(ss: seq<seq<T>>): seq<T> {
    if ss == [] then [] else ss[0] + Flatten(ss[1..])
  }

  lemma {:induction false} FlattenSnoc<T>(ss: seq<seq<T>>, c: seq<T>)
    ensures Flatten(ss + [c]) == Flatten(ss) + c
  {
    if ss == [] {
      assert ss + [c] == [c];
      assert [c][1..] == [];
    } else {
      assert (ss + [c])[1..] == ss[1..] + [c];
      FlattenSnoc(ss[1..], c);
    }
  }

  /** One more chunk done is that chunk appended to what was done. */
  lemma FlattenPrefix<T>(ss: seq<seq<T>>, i: nat)
    requires i < |ss|
    ensures Flatten(ss[..i + 1]) == Flatten(ss[..i]) + ss[i]
  {
    assert ss[..i + 1] == ss[..i] + [ss[i]];
    FlattenSnoc(ss[..i], ss[i]);
  }

  /**
   * What `prunePosts(feedId, maxPosts)` leaves in the table: when the feed has more
   * than `maxPosts` posts, the ids after the first `maxPosts` of its newest-first
   * list are deleted from it.
   */
  function PrunedRows(rows: seq<Post>, feedId: Int32, maxPosts: nat): seq<Post> {
    var ids := PostIdsDesc(rows, feedId);
    if |ids| > maxPosts then Removed(rows, feedId, ids[maxPosts..]) else rows
  }

  function NotIn(ids: seq<Int32>): Post -> bool {
    (x: Post) => x.postId !in ids
  }

  /** The rows of one feed carry distinct post ids. */
  lemma OneFeedIds(ps: seq<Post>, feedId: Int32)
    requires KeysDistinct(ps) && forall x | x in ps :: x.feedId == feedId
    ensures Distinct(PostIds(ps)) && |SetOf(PostIds(ps))| == |ps|
  {
    var ids := PostIds(ps);
    forall i, j | 0 <= i < j < |ids|
      ensures ids[i] != ids[j]
    {
      assert Key(ps[i]) != Key(ps[j]);
    }
    SetOfSize(ids);
  }

  /** Two rearrangements of the same rows have the same length and the same post ids. */
  lemma PermutedIds(s: seq<Post>, f: seq<Post>)
    requires multiset(s) == multiset(f)
    ensures |s| == |f| && SetOf(PostIds(s)) == SetOf(PostIds(f))
  {
    assert |multiset(s)| == |multiset(f)|;
    forall y | y in SetOf(PostIds(s))
      ensures y in SetOf(PostIds(f))
    {
      var i :| 0 <= i < |s| && PostIds(s)[i] == y;
      assert s[i] in multiset(f);
      var j :| 0 <= j < |f| && f[j] == s[i];
      assert PostIds(f)[j] == y;
    }
    forall y | y in SetOf(PostIds(f))
      ensures y in SetOf(PostIds(s))
    {
      var j :| 0 <= j < |f| && PostIds(f)[j] == y;
      assert f[j] in multiset(s);
      var i :| 0 <= i < |s| && s[i] == f[j];
      assert PostIds(s)[i] == y;
    }
  }

  /** The newest-first listing of a feed is a rearrangement of the feed's rows. */
  lemma NewestFirstRows(rows: seq<Post>, feedId: Int32)
    ensures multiset(Select(rows, [feedId], false, false)) == multiset(Where(rows, OfFeed(feedId)))
  {
    WhereExt(rows, Wanted([feedId], false), OfFeed(feedId));
  }

  /**
   * The newest-first id list of a feed lists each of the feed's posts once: it is as
   * long as the feed, has no repeated id, and holds the ids of exactly its rows.
   */
  lemma NewestFirstIds(rows: seq<Post>, feedId: Int32)
    requires KeysDistinct(rows)
    ensures var ids := PostIdsDesc(rows, feedId);
            var f := Where(rows, OfFeed(feedId));
            |ids| == |f| && Distinct(ids) && SetOf(ids) == SetOf(PostIds(f))
  {
    var f := Where(rows, OfFeed(feedId));
    var s := Select(rows, [feedId], false, false);
    NewestFirstRows(rows, feedId);
    PermutedIds(s, f);
    WhereKeysDistinct(rows, OfFeed(feedId));
    OneFeedIds(f, feedId);
    CardDistinct(PostIds(s));
  }

  /** The ids of the rows whose id is outside `tail` are the ids outside `tail`. */
  lemma SurvivorIds(f: seq<Post>, tail: seq<Int32>)
    ensures SetOf(PostIds(Where(f, NotIn(tail)))) == SetOf(PostIds(f)) - SetOf(tail)
  {
    var g := Where(f, NotIn(tail));
    forall y | y in SetOf(PostIds(g))
      ensures y in SetOf(PostIds(f)) - SetOf(tail)
    {
      var i :| 0 <= i < |g| && PostIds(g)[i] == y;
      assert g[i] in g;
      var j :| 0 <= j < |f| && f[j] == g[i];
      assert PostIds(f)[j] == y;
      assert y !in tail;
    }
    forall y | y in SetOf(PostIds(f)) - SetOf(tail)
      ensures y in SetOf(PostIds(g))
    {
      var j :| 0 <= j < |f| && PostIds(f)[j] == y;
      assert f[j] in g;
      var i :| 0 <= i < |g| && g[i] == f[j];
      assert PostIds(g)[i] == y;
    }
  }

  /** A suffix of a list without repeats has no repeats, and its values are among the list's. */
  lemma SuffixDistinct<T>(ids: seq<T>, m: nat)
    requires Distinct(ids) && m <= |ids|
    ensures SetOf(ids[m..]) <= SetOf(ids) && |SetOf(ids[m..])| == |ids| - m
  {
    var tail := ids[m..];
    forall i, j | 0 <= i < j < |tail|
      ensures tail[i] != tail[j]
    {
      assert tail[i] == ids[m + i] && tail[j] == ids[m + j];
    }
    SetOfSize(tail);
    forall y | y in SetOf(tail)
      ensures y in SetOf(ids)
    {
      var i :| 0 <= i < |tail| && tail[i] == y;
      assert ids[m + i] == y;
    }
  }

  /** Pruning a feed to the ids outside `tail` keeps, of that feed, the rows whose id is not in `tail`. */
  lemma PrunedFeedRows(rows: seq<Post>, feedId: Int32, tail: seq<Int32>)
    ensures Where(Removed(rows, feedId, tail), OfFeed(feedId))
         == Where(Where(rows, OfFeed(feedId)), NotIn(tail))
  {
    WhereWhere(rows, Survives(feedId, tail), OfFeed(feedId));
    WhereWhere(rows, OfFeed(feedId), NotIn(tail));
    WhereExt(rows, Both(Survives(feedId, tail), OfFeed(feedId)), Both(OfFeed(feedId), NotIn(tail)));
  }

  /** A feed with at most `maxPosts` posts is left as it is. */
  lemma PruneSmallFeed(rows: seq<Post>, feedId: Int32, maxPosts: nat)
    requires KeysDistinct(rows) && |Where(rows, OfFeed(feedId))| <= maxPosts
    ensures PrunedRows(rows, feedId, maxPosts) == rows
  {
    NewestFirstIds(rows, feedId);
  }

  /** After pruning, the feed has `min(n, maxPosts)` posts, `n` being the number it had. */
  lemma PruneCount(rows: seq<Post>, feedId: Int32, maxPosts: nat)
    requires KeysDistinct(rows)
    ensures |Where(PrunedRows(rows, feedId, maxPosts), OfFeed(feedId))|
         == Min(|Where(rows, OfFeed(feedId))|, maxPosts)
  {
    var ids := PostIdsDesc(rows, feedId);
    var f := Where(rows, OfFeed(feedId));
    NewestFirstIds(rows, feedId);
    if |ids| > maxPosts {
      var tail := ids[maxPosts..];
      PrunedFeedRows(rows, feedId, tail);
      var g := Where(f, NotIn(tail));
      WhereKeysDistinct(rows, OfFeed(feedId));
      WhereKeysDistinct(f, NotIn(tail));
      OneFeedIds(g, feedId);
      SurvivorIds(f, tail);
      SuffixDistinct(ids, maxPosts);
      SetOfSize(ids);
      DiffSize(SetOf(ids), SetOf(tail));
      assert |Where(PrunedRows(rows, feedId, maxPosts), OfFeed(feedId))| == |g|;
      assert |g| == |SetOf(ids) - SetOf(tail)|;
    }
  }

  lemma DiffSize<T>(a: set<T>, b: set<T>)
    requires b <= a
    ensures |a - b| == |a| - |b|
  {
    assert a == (a - b) + b;
  }

  /**
   * Of the pruned feed, exactly the posts whose ids are among the first `maxPosts`
   * of the newest-first list remain.
   */
  lemma PruneKeepsNewest(rows: seq<Post>, feedId: Int32, maxPosts: nat, x: Post)
    requires KeysDistinct(rows) && x in rows && x.feedId == feedId
    ensures var ids := PostIdsDesc(rows, feedId);
            x in PrunedRows(rows, feedId, maxPosts) <==> x.postId in ids[..Min(maxPosts, |ids|)]
  {
    var ids := PostIdsDesc(rows, feedId);
    var f := Where(rows, OfFeed(feedId));
    NewestFirstIds(rows, feedId);
    var j :| 0 <= j < |f| && f[j] == x;
    assert PostIds(f)[j] == x.postId;
    assert x.postId in SetOf(ids);
    var k :| 0 <= k < |ids| && ids[k] == x.postId;
    if |ids| > maxPosts {
      assert forall m | 0 <= m < maxPosts :: ids[..maxPosts][m] == ids[m];
      assert forall m | 0 <= m < |ids| - maxPosts :: ids[maxPosts..][m] == ids[maxPosts + m];
      if k < maxPosts {
        assert ids[..maxPosts][k] == x.postId;
      } else {
        assert ids[maxPosts..][k - maxPosts] == x.postId;
      }
    } else {
      assert ids[..|ids|] == ids;
    }
  }

  /** Pruning one feed leaves the rows of every other feed exactly as they were. */
  lemma PruneOtherFeeds(rows: seq<Post>, feedId: Int32, maxPosts: nat, other: Int32)
    requires other != feedId
    ensures Where(PrunedRows(rows, feedId, maxPosts), OfFeed(other)) == Where(rows, OfFeed(other))
  {
    var ids := PostIdsDesc(rows, feedId);
    if |ids| > maxPosts {
      RemovedOtherFeeds(rows, feedId, ids[maxPosts..], other);
    }
  }

  /** Pruning twice to the same bound prunes no further. */
  lemma PruneIdempotent(rows: seq<Post>, feedId: Int32, maxPosts: nat)
    requires KeysDistinct(rows)
    ensures PrunedRows(PrunedRows(rows, feedId, maxPosts), feedId, maxPosts) == PrunedRows(rows, feedId, maxPosts)
  {
    var r := PrunedRows(rows, feedId, maxPosts);
    PruneCount(rows, feedId, maxPosts);
    if |PostIdsDesc(rows, feedId)| > maxPosts {
      WhereKeysDistinct(rows, Survives(feedId, PostIdsDesc(rows, feedId)[maxPosts..]));
    }
    PruneSmallFeed(r, feedId, maxPosts);
  }

  // ---------------------------------------------------------------------------
  // The view model

  class ArseViewModel {
    const postDao: PostTable
    const feedDao: FeedTable

    ghost predicate Valid()
      reads this, postDao, feedDao
    {
      postDao.Valid() && feedDao.Valid()
    }

    constructor(postDao: PostTable, feedDao: FeedTable)
      requires postDao.Valid() && feedDao.Valid()
      ensures this.postDao == postDao && this.feedDao == feedDao && Valid()
    {
      this.postDao := postDao;
      this.feedDao := feedDao;
    }

    /** `updateFeed(feedId, url, name, category)`. */
    method UpdateFeed(feedId: Int32, url: string, name: string, category: string)
      modifies feedDao
      requires Valid()
      ensures Valid()
      ensures feedDao.rows == UpdatedFeed(old(feedDao.rows), EditedFeed(feedId, url, name, category))
      ensures feedDao.lastId == old(feedDao.lastId)
    {
      feedDao.Update(EditedFeed(feedId, url, name, category));
    }

    /** `updateFeedHash(feed, newHash)`. */
    method UpdateFeedHash(feed: Feed, newHash: Int32)
      modifies feedDao
      requires Valid()
      ensures Valid()
      ensures feedDao.rows == UpdatedFeed(old(feedDao.rows), HashUpdated(feed, newHash))
      ensures feedDao.lastId == old(feedDao.lastId)
    {
      feedDao.Update(HashUpdated(feed, newHash));
    }

    /** `markPostRead(postId, feedId)`. */
    method MarkPostRead(postId: Int32, feedId: Int32)
      modifies postDao
      requires Valid()
      ensures Valid() && postDao.rows == WithRead(old(postDao.rows), (feedId, postId), true)
    {
      postDao.MarkRead(postId, feedId);
    }

    /** `markPostUnread(postId, feedId)`. */
    method MarkPostUnread(postId: Int32, feedId: Int32)
      modifies postDao
      requires Valid()
      ensures Valid() && postDao.rows == WithRead(old(postDao.rows), (feedId, postId), false)
    {
      postDao.MarkUnread(postId, feedId);
    }

    /** `togglePostRead(postId, feedId)`. */
    method TogglePostRead(postId: Int32, feedId: Int32)
      modifies postDao
      requires Valid()
      ensures Valid() && postDao.rows == Toggled(old(postDao.rows), (feedId, postId))
    {
      postDao.ToggleRead(postId, feedId);
    }

    /** `addNewPost(post)`: ignored when a post with the same key is stored. */
    method AddNewPost(p: Post)
      modifies postDao
      requires Valid()
      ensures Valid() && postDao.rows == Inserted(old(postDao.rows), p)
    {
      postDao.Insert(p);
    }

    /** `addNewFeed(feed)`. */
    method AddNewFeed(f: Feed)
      modifies feedDao
      requires Valid()
      ensures Valid()
      ensures Table(feedDao.rows, feedDao.lastId) == InsertedFeed(Table(old(feedDao.rows), old(feedDao.lastId)), f)
    {
      feedDao.Insert(f);
    }

    /** `addNewFeed(url, name, category)`: a new feed whose site link is the placeholder "todo". */
    method AddNewFeedEntry(url: string, name: string, category: string)
      modifies feedDao
      requires Valid()
      ensures Valid()
      ensures Table(feedDao.rows, feedDao.lastId)
           == InsertedFeed(Table(old(feedDao.rows), old(feedDao.lastId)), GetNewFeed(url, name, "todo", category))
    {
      feedDao.Insert(GetNewFeed(url, name, "todo", category));
    }

    /** `deleteFeed(id)`: the feed's row goes; its posts stay. */
    method DeleteFeed(id: Int32)
      modifies feedDao
      requires Valid()
      ensures Valid() && feedDao.rows == DeletedFeed(old(feedDao.rows), id) && feedDao.lastId == old(feedDao.lastId)
    {
      feedDao.DeleteId(id);
    }

    /** `retrievePostsInFeeds(feedIds, include_read, ascending)`. */
    method RetrievePostsInFeeds(feedIds: seq<Int32>, includeRead: bool := false, ascending: bool := true)
      returns (ps: seq<Post>)
      ensures ps == PostsInFeeds(postDao.rows, feedIds, includeRead, ascending)
    {
      ps := PostsInFeeds(postDao.rows, feedIds, includeRead, ascending);
    }

    /** `countUnreadPostsAndRunCallback(feedIds, callback)`: the count handed to the callback. */
    method CountUnreadPosts(feedIds: seq<Int32>) returns (n: nat)
      ensures n == CountUnread(postDao.rows, feedIds)
    {
      n := CountUnread(postDao.rows, feedIds);
    }

    /** The loop of `prunePosts`: one `deletePostsFromFeed` per chunk, in order. */
    method DeleteInChunks(feedId: Int32, chunks: seq<seq<Int32>>)
      modifies postDao
      requires Valid()
      ensures Valid() && postDao.rows == Removed(old(postDao.rows), feedId, Flatten(chunks))
    {
      ghost var rows0 := postDao.rows;
      WhereAll(rows0, Survives(feedId, []));
      var i := 0;
      while i < |chunks|
        invariant 0 <= i <= |chunks|
        invariant postDao.Valid()
        invariant postDao.rows == Removed(rows0, feedId, Flatten(chunks[..i]))
      {
        FlattenPrefix(chunks, i);
        RemovedRemoved(rows0, feedId, Flatten(chunks[..i]), chunks[i]);
        postDao.DeletePostsFromFeed(feedId, chunks[i]);
        i := i + 1;
      }
      assert chunks[..i] == chunks;
    }

    /**
     * `prunePosts(feedId, maxPosts)`: reads the feed's ids newest first and, when
     * there are more than `maxPosts`, deletes the rest ten at a time. A negative
     * `maxPosts` makes `subList` throw before anything is deleted; `ok` is then false.
     */
    method PrunePosts(feedId: Int32, maxPosts: Int32) returns (ok: bool)
      modifies postDao
      requires Valid()
      ensures Valid()
      ensures ok <==> maxPosts >= 0
      ensures ok ==> postDao.rows == PrunedRows(old(postDao.rows), feedId, maxPosts as nat)
      ensures !ok ==> postDao.rows == old(postDao.rows)
    {
      var postIds := postDao.GetPostIdsInFeedDescNow(feedId);
      if |postIds| > maxPosts as int {
        if maxPosts < 0 {
          return false;
        }
        var postsToRemove := postIds[maxPosts..];
        DeleteInChunks(feedId, Chunked(postsToRemove, CHUNK_SIZE));
      }
      return true;
    }
  }
}
