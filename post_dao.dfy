// The post table behind `PostDao` (app/src/main/java/com/alex/arse/data/PostDao.kt):
// rows in table order, one per (feed_id, post_id), and what each SQL statement
// does to them.

module PostDao {
  import opened JavaLang
  import opened StoreData
  import opened Rows

  /** No two rows share a primary key. */
  ghost predicate KeysDistinct(rows: seq<Post>) {
    forall i, j | 0 <= i < j < |rows| :: Key(rows[i]) != Key(rows[j])
  }

  predicate HasKey(rows: seq<Post>, k: (Int32, Int32)) {
    exists i | 0 <= i < |rows| :: Key(rows[i]) == k
  }

  lemma {:induction false} WhereKeysDistinct(rows: seq<Post>, keep: Post -> bool)
    requires KeysDistinct(rows)
    ensures KeysDistinct(Where(rows, keep))
  {
    if rows != [] {
      WhereKeysDistinct(rows[1..], keep);
      var rest := Where(rows[1..], keep);
      forall j | 0 <= j < |rest|
        ensures Key(rows[0]) != Key(rest[j])
      {
        assert rest[j] in rows[1..];
      }
    }
  }

  // ---------------------------------------------------------------------------
  // Statements

  /**
   * `@Insert(onConflict = IGNORE)`: a post whose key is already present leaves the
   * table as it is; any other is added as a new row.
   */
  function Inserted(rows: seq<Post>, p: Post): (r: seq<Post>)
    ensures HasKey(r, Key(p))
    ensures |rows| <= |r| <= |rows| + 1 && r[..|rows|] == rows
    ensures !HasKey(rows, Key(p)) ==> p in r
    ensures HasKey(rows, Key(p)) <==> r == rows
    ensures KeysDistinct(rows) ==> KeysDistinct(r)
  {
    if HasKey(rows, Key(p)) then rows
    else
      var r := rows + [p];
      assert Key(r[|rows|]) == Key(p);
      r
  }

  /** The same post inserted twice gives one row. */
  lemma InsertTwice(rows: seq<Post>, p: Post)
    ensures Inserted(Inserted(rows, p), p) == Inserted(rows, p)
  {
    assert Key(Inserted(rows, p)[|Inserted(rows, p)| - 1]) == Key(p) || HasKey(rows, Key(p));
  }

  /** `UPDATE post SET read = :v WHERE post_id = :postId AND feed_id = :feedId`. */
  function WithRead(rows: seq<Post>, k: (Int32, Int32), v: bool): (r: seq<Post>)
    ensures |r| == |rows|
    ensures forall i | 0 <= i < |rows| :: r[i] == if Key(rows[i]) == k then rows[i].(read := v) else rows[i]
  {
    seq(|rows|, i requires 0 <= i < |rows| => if Key(rows[i]) == k then rows[i].(read := v) else rows[i])
  }

  /** `UPDATE post SET read = NOT read WHERE post_id = :postId AND feed_id = :feedId`. */
  function Toggled(rows: seq<Post>, k: (Int32, Int32)): (r: seq<Post>)
    ensures |r| == |rows|
    ensures forall i | 0 <= i < |rows| :: r[i] == if Key(rows[i]) == k then rows[i].(read := !rows[i].read) else rows[i]
  {
    seq(|rows|, i requires 0 <= i < |rows| => if Key(rows[i]) == k then rows[i].(read := !rows[i].read) else rows[i])
  }

  /** Toggling twice restores the table. */
  lemma ToggleTwice(rows: seq<Post>, k: (Int32, Int32))
    ensures Toggled(Toggled(rows, k), k) == rows
  {
  }

  /** Marking keeps every key, and with it the one-row-per-key invariant. */
  lemma WithReadKeys(rows: seq<Post>, k: (Int32, Int32), v: bool)
    requires KeysDistinct(rows)
    ensures KeysDistinct(WithRead(rows, k, v)) && KeysDistinct(Toggled(rows, k))
  {
    var a := WithRead(rows, k, v);
    var b := Toggled(rows, k);
    assert forall i | 0 <= i < |rows| :: Key(a[i]) == Key(rows[i]) && Key(b[i]) == Key(rows[i]);
  }

  /** `@Update`: the row with the post's key is replaced by the post. */
  function Updated(rows: seq<Post>, p: Post): (r: seq<Post>)
    ensures |r| == |rows|
    ensures forall i | 0 <= i < |rows| :: r[i] == if Key(rows[i]) == Key(p) then p else rows[i]
  {
    seq(|rows|, i requires 0 <= i < |rows| => if Key(rows[i]) == Key(p) then p else rows[i])
  }

  /** `DELETE FROM post WHERE feed_id = :feedId AND post_id IN (:posts)`. */
  function Removed(rows: seq<Post>, feedId: Int32, ids: seq<Int32>): (r: seq<Post>)
    ensures forall x :: x in r <==> x in rows && !(x.feedId == feedId && x.postId in ids)
  {
    Where(rows, Survives(feedId, ids))
  }

  /** The rows a deletion of `ids` from the feed `feedId` keeps. */
  function Survives(feedId: Int32, ids: seq<Int32>): Post -> bool {
    (x: Post) => !(x.feedId == feedId && x.postId in ids)
  }

  function OfFeed(feedId: Int32): Post -> bool {
    (x: Post) => x.feedId == feedId
  }

  /** Deleting twice deletes nothing more. */
  lemma RemovedIdempotent(rows: seq<Post>, feedId: Int32, ids: seq<Int32>)
    ensures Removed(Removed(rows, feedId, ids), feedId, ids) == Removed(rows, feedId, ids)
  {
    var r := Removed(rows, feedId, ids);
    WhereAll(r, Survives(feedId, ids));
  }

  /** Two deletions from one feed are one deletion of both id lists. */
  lemma RemovedRemoved(rows: seq<Post>, feedId: Int32, a: seq<Int32>, b: seq<Int32>)
    ensures Removed(Removed(rows, feedId, a), feedId, b) == Removed(rows, feedId, a + b)
  {
    WhereWhere(rows, Survives(feedId, a), Survives(feedId, b));
    WhereExt(rows, Both(Survives(feedId, a), Survives(feedId, b)), Survives(feedId, a + b));
  }

  /** The rows of the other feeds are left exactly as they were. */
  lemma RemovedOtherFeeds(rows: seq<Post>, feedId: Int32, ids: seq<Int32>, other: Int32)
    requires other != feedId
    ensures Where(Removed(rows, feedId, ids), OfFeed(other)) == Where(rows, OfFeed(other))
  {
    WhereWhere(rows, Survives(feedId, ids), OfFeed(other));
    WhereExt(rows, Both(Survives(feedId, ids), OfFeed(other)), OfFeed(other));
  }

  // ---------------------------------------------------------------------------
  // Queries

  function Timestamp(p: Post): int { p.timestamp }

  function Ascending(ascending: bool): (int, int) -> bool {
    if ascending then (a: int, b: int) => a <= b else (a: int, b: int) => a >= b
  }

  lemma AscendingTotal(ascending: bool)
    ensures TotalOrder(Ascending(ascending))
  {
  }

  /** `WHERE feed_id IN (:feedIds)`, optionally `AND read = 0`. */
  function Matching(rows: seq<Post>, feedIds: seq<Int32>, unreadOnly: bool): seq<Post> {
    Where(rows, Wanted(feedIds, unreadOnly))
  }

  function Wanted(feedIds: seq<Int32>, unreadOnly: bool): Post -> bool {
    (x: Post) => x.feedId in feedIds && (!unreadOnly || !x.read)
  }

  /**
   * The four list queries: the matching rows ordered by timestamp, ascending or
   * descending; rows with equal timestamps stay in table order.
   */
  function Select(rows: seq<Post>, feedIds: seq<Int32>, unreadOnly: bool, ascending: bool): (r: seq<Post>)
    ensures multiset(r) == multiset(Matching(rows, feedIds, unreadOnly))
    ensures Sorted(r, Timestamp, Ascending(ascending))
    ensures forall t :: KeyFilter(r, Timestamp, t) == KeyFilter(Matching(rows, feedIds, unreadOnly), Timestamp, t)
  {
    var m := Matching(rows, feedIds, unreadOnly);
    SortByTimestamp(m, ascending);
    Sort(m, Timestamp, Ascending(ascending))
  }

  lemma SortByTimestamp(m: seq<Post>, ascending: bool)
    ensures multiset(Sort(m, Timestamp, Ascending(ascending))) == multiset(m)
    ensures Sorted(Sort(m, Timestamp, Ascending(ascending)), Timestamp, Ascending(ascending))
    ensures forall t :: KeyFilter(Sort(m, Timestamp, Ascending(ascending)), Timestamp, t) == KeyFilter(m, Timestamp, t)
  {
    AscendingTotal(ascending);
    SortPermutes(m, Timestamp, Ascending(ascending));
    SortSorted(m, Timestamp, Ascending(ascending));
    forall t
      ensures KeyFilter(Sort(m, Timestamp, Ascending(ascending)), Timestamp, t) == KeyFilter(m, Timestamp, t)
    {
      SortStable(m, Timestamp, Ascending(ascending), t);
    }
  }

  /** A row is listed exactly when it is in the table, in one of the feeds and, if asked, unread. */
  lemma SelectMembers(rows: seq<Post>, feedIds: seq<Int32>, unreadOnly: bool, ascending: bool, x: Post)
    ensures x in Select(rows, feedIds, unreadOnly, ascending)
        <==> x in rows && x.feedId in feedIds && (!unreadOnly || !x.read)
  {
    var r := Select(rows, feedIds, unreadOnly, ascending);
    assert x in r <==> x in multiset(r);
    assert x in Matching(rows, feedIds, unreadOnly) <==> x in multiset(Matching(rows, feedIds, unreadOnly));
  }

  /** `SELECT COUNT(*) ... WHERE feed_id IN (:feedIds) AND read = 0`. */
  function CountUnread(rows: seq<Post>, feedIds: seq<Int32>): nat {
    |Matching(rows, feedIds, true)|
  }

  /** The count is the length of either unread list. */
  lemma CountIsUnreadListLength(rows: seq<Post>, feedIds: seq<Int32>, ascending: bool)
    ensures CountUnread(rows, feedIds) == |Select(rows, feedIds, true, ascending)|
  {
    var r := Select(rows, feedIds, true, ascending);
    assert |multiset(r)| == |r|;
    assert |multiset(Matching(rows, feedIds, true))| == |Matching(rows, feedIds, true)|;
  }

  function PostIds(ps: seq<Post>): (r: seq<Int32>)
    ensures |r| == |ps| && forall i | 0 <= i < |ps| :: r[i] == ps[i].postId
  {
    seq(|ps|, i requires 0 <= i < |ps| => ps[i].postId)
  }

  /** `SELECT post_id FROM post WHERE feed_id = :feedId ORDER BY timestamp DESC`. */
  function PostIdsDesc(rows: seq<Post>, feedId: Int32): seq<Int32> {
    PostIds(Select(rows, [feedId], false, false))
  }

  /** Marking a post read lowers the unread count by one exactly when it was an unread post of those feeds. */
  lemma MarkReadCount(rows: seq<Post>, feedIds: seq<Int32>, i: nat)
    requires KeysDistinct(rows) && i < |rows|
    ensures CountUnread(WithRead(rows, Key(rows[i]), true), feedIds)
         == CountUnread(rows, feedIds) - (if rows[i].feedId in feedIds && !rows[i].read then 1 else 0)
  {
    MarkReadCountFrom(rows, feedIds, Key(rows[i]));
    UnreadWithKey(rows, feedIds, i);
  }

  function UnreadOf(rows: seq<Post>, feedIds: seq<Int32>, k: (Int32, Int32)): nat {
    |Where(rows, (x: Post) => Key(x) == k && x.feedId in feedIds && !x.read)|
  }

  lemma {:induction false} MarkReadCountFrom(rows: seq<Post>, feedIds: seq<Int32>, k: (Int32, Int32))
    ensures CountUnread(WithRead(rows, k, true), feedIds) == CountUnread(rows, feedIds) - UnreadOf(rows, feedIds, k)
  {
    if rows != [] {
      var w := WithRead(rows, k, true);
      MarkReadCountFrom(rows[1..], feedIds, k);
      assert w[1..] == WithRead(rows[1..], k, true);
      assert CountUnread(w, feedIds) == (if w[0].feedId in feedIds && !w[0].read then 1 else 0) + CountUnread(w[1..], feedIds);
      assert CountUnread(rows, feedIds) == (if rows[0].feedId in feedIds && !rows[0].read then 1 else 0) + CountUnread(rows[1..], feedIds);
    }
  }

  lemma {:induction false} UnreadWithKey(rows: seq<Post>, feedIds: seq<Int32>, i: nat)
    requires KeysDistinct(rows) && i < |rows|
    ensures UnreadOf(rows, feedIds, Key(rows[i])) == if rows[i].feedId in feedIds && !rows[i].read then 1 else 0
  {
    var k := Key(rows[i]);
    if i == 0 {
      UnreadOfAbsent(rows[1..], feedIds, k);
    } else {
      assert Key(rows[0]) != k;
      assert rows[1..][i - 1] == rows[i];
      UnreadWithKey(rows[1..], feedIds, i - 1);
    }
  }

  lemma {:induction false} UnreadOfAbsent(rows: seq<Post>, feedIds: seq<Int32>, k: (Int32, Int32))
    requires forall j | 0 <= j < |rows| :: Key(rows[j]) != k
    ensures UnreadOf(rows, feedIds, k) == 0
  {
    if rows != [] {
      assert Key(rows[0]) != k;
      UnreadOfAbsent(rows[1..], feedIds, k);
    }
  }

  // ---------------------------------------------------------------------------
  // The table

  class PostTable {
    var rows: seq<Post>

    ghost predicate Valid()
      reads this
    {
      KeysDistinct(rows)
    }

    constructor()
      ensures rows == [] && Valid()
    {
      rows := [];
    }

    /** `insert(post)`. */
    method Insert(p: Post)
      modifies this
      requires Valid()
      ensures Valid() && rows == Inserted(old(rows), p)
    {
      rows := Inserted(rows, p);
    }

    /** `markRead(postId, feedId)`. */
    method MarkRead(postId: Int32, feedId: Int32)
      modifies this
      requires Valid()
      ensures Valid() && rows == WithRead(old(rows), (feedId, postId), true)
    {
      WithReadKeys(rows, (feedId, postId), true);
      rows := WithRead(rows, (feedId, postId), true);
    }

    /** `markUnread(postId, feedId)`. */
    method MarkUnread(postId: Int32, feedId: Int32)
      modifies this
      requires Valid()
      ensures Valid() && rows == WithRead(old(rows), (feedId, postId), false)
    {
      WithReadKeys(rows, (feedId, postId), false);
      rows := WithRead(rows, (feedId, postId), false);
    }

    /** `toggleRead(postId, feedId)`. */
    method ToggleRead(postId: Int32, feedId: Int32)
      modifies this
      requires Valid()
      ensures Valid() && rows == Toggled(old(rows), (feedId, postId))
    {
      WithReadKeys(rows, (feedId, postId), true);
      rows := Toggled(rows, (feedId, postId));
    }

    /** `update(post)`. */
    method Update(p: Post)
      modifies this
      requires Valid()
      ensures Valid() && rows == Updated(old(rows), p)
    {
      var r := Updated(rows, p);
      assert forall i | 0 <= i < |rows| :: Key(r[i]) == Key(rows[i]);
      rows := r;
    }

    /** `delete(post)`: the row with the post's key. */
    method Delete(p: Post)
      modifies this
      requires Valid()
      ensures Valid() && rows == Removed(old(rows), p.feedId, [p.postId])
    {
      WhereKeysDistinct(rows, Survives(p.feedId, [p.postId]));
      rows := Removed(rows, p.feedId, [p.postId]);
    }

    /** `deletePostFromFeed(feedId, postId)`. */
    method DeletePostFromFeed(feedId: Int32, postId: Int32)
      modifies this
      requires Valid()
      ensures Valid() && rows == Removed(old(rows), feedId, [postId])
    {
      WhereKeysDistinct(rows, Survives(feedId, [postId]));
      rows := Removed(rows, feedId, [postId]);
    }

    /** `deletePostsFromFeed(feedId, posts)`. */
    method DeletePostsFromFeed(feedId: Int32, posts: seq<Int32>)
      modifies this
      requires Valid()
      ensures Valid() && rows == Removed(old(rows), feedId, posts)
    {
      WhereKeysDistinct(rows, Survives(feedId, posts));
      rows := Removed(rows, feedId, posts);
    }

    /** `getPostIdsInFeedDescNow(feedId)`. */
    method GetPostIdsInFeedDescNow(feedId: Int32) returns (ids: seq<Int32>)
      ensures ids == PostIdsDesc(rows, feedId)
    {
      ids := PostIdsDesc(rows, feedId);
    }
  }
}
