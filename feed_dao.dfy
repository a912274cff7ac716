// The feed table behind `FeedDao` (app/src/main/java/com/alex/arse/data/FeedDao.kt):
// rows in table order, one per generated id, the `AUTOINCREMENT` counter, and what
// each SQL statement does to them.

module FeedDao {
  import opened JavaLang
  import opened StoreData
  import opened Rows

  const MAX_ID: int := 0x7FFF_FFFF

  /** No two rows share an id. */
  ghost predicate IdsDistinct(rows: seq<Feed>) {
    forall i, j | 0 <= i < j < |rows| :: rows[i].id != rows[j].id
  }

  predicate HasId(rows: seq<Feed>, id: Int32) {
    exists i | 0 <= i < |rows| :: rows[i].id == id
  }

  /**
   * Every id in use is non-zero (an explicit negative id is stored as given) and at
   * most the largest id handed out so far.
   */
  ghost predicate Counted(rows: seq<Feed>, lastId: int) {
    0 <= lastId <= MAX_ID && forall i | 0 <= i < |rows| :: rows[i].id != 0 && rows[i].id <= lastId
  }

  // ---------------------------------------------------------------------------
  // Statements

  /** The result of `insert`: the new rows and the new value of the id counter. */
  datatype Table = Table(rows: seq<Feed>, lastId: int)

  /**
   * `@Insert(onConflict = IGNORE)` with a generated key: a feed with id 0 gets the
   * next id; a feed whose id is taken leaves the table as it is; a feed with a free
   * id is added under that id and raises the counter to it if it is larger. Once the
   * counter stands at 2^31 - 1 (one explicit insert of that id is enough), a feed
   * with id 0 is not added: the 64-bit counter of SQLite would go on to 2^31, which
   * an `Int` id cannot hold.
   */
  function InsertedFeed(t: Table, f: Feed): (r: Table)
    requires Counted(t.rows, t.lastId)
    ensures Counted(r.rows, r.lastId) && t.lastId <= r.lastId
    ensures IdsDistinct(t.rows) ==> IdsDistinct(r.rows)
    ensures |t.rows| <= |r.rows| <= |t.rows| + 1 && r.rows[..|t.rows|] == t.rows
    ensures f.id != 0 && HasId(t.rows, f.id) ==> r == t
    ensures f.id != 0 && !HasId(t.rows, f.id) ==> r.rows == t.rows + [f]
    ensures f.id == 0 && t.lastId < MAX_ID ==> r.rows == t.rows + [f.(id := r.lastId)] && !HasId(t.rows, r.lastId)
    ensures f.id == 0 && t.lastId == MAX_ID ==> r == t
  {
    if f.id == 0 then
      if t.lastId < MAX_ID then
        var g := f.(id := t.lastId + 1);
        assert g.id == t.lastId + 1;
        Table(t.rows + [g], t.lastId + 1)
      else t
    else if HasId(t.rows, f.id) then t
    else
      var r := t.rows + [f];
      assert r[|t.rows|] == f;
      Table(r, if f.id > t.lastId then f.id as int else t.lastId)
  }

  /** Inserting the same feed (with its id) a second time changes nothing. */
  lemma InsertFeedTwice(t: Table, f: Feed)
    requires Counted(t.rows, t.lastId) && f.id != 0
    ensures InsertedFeed(InsertedFeed(t, f), f) == InsertedFeed(t, f)
  {
    var r := InsertedFeed(t, f);
    if !HasId(t.rows, f.id) {
      assert r.rows[|t.rows|].id == f.id;
    }
  }

  /** `@Update`: the row with the feed's id is replaced by the feed. */
  function UpdatedFeed(rows: seq<Feed>, f: Feed): (r: seq<Feed>)
    ensures |r| == |rows|
    ensures forall i | 0 <= i < |rows| :: r[i] == if rows[i].id == f.id then f else rows[i]
    ensures forall i | 0 <= i < |rows| :: r[i].id == rows[i].id
  {
    seq(|rows|, i requires 0 <= i < |rows| => if rows[i].id == f.id then f else rows[i])
  }

  function NotId(id: Int32): Feed -> bool {
    (x: Feed) => x.id != id
  }

  /** `DELETE from feed WHERE id = :feedId`, and `@Delete`, which deletes by the primary key. */
  function DeletedFeed(rows: seq<Feed>, id: Int32): (r: seq<Feed>)
    ensures forall x :: x in r <==> x in rows && x.id != id
    ensures !HasId(r, id)
  {
    Where(rows, NotId(id))
  }

  /** Deleting an id keeps the other rows in their order. */
  lemma DeleteKeepsOthers(rows: seq<Feed>, id: Int32, keep: Feed -> bool)
    requires forall x | x in rows && keep(x) :: x.id != id
    ensures Where(DeletedFeed(rows, id), keep) == Where(rows, keep)
  {
    WhereWhere(rows, NotId(id), keep);
    WhereExt(rows, Both(NotId(id), keep), keep);
  }

  lemma {:induction false} WhereIdsDistinct(rows: seq<Feed>, keep: Feed -> bool)
    requires IdsDistinct(rows)
    ensures IdsDistinct(Where(rows, keep))
  {
    if rows != [] {
      WhereIdsDistinct(rows[1..], keep);
      var rest := Where(rows[1..], keep);
      forall j | 0 <= j < |rest|
        ensures rows[0].id != rest[j].id
      {
        assert rest[j] in rows[1..];
      }
    }
  }

  // ---------------------------------------------------------------------------
  // Queries

  function Name(f: Feed): string { f.name }

  /** SQLite's `BINARY` collation: the code points in order, a proper prefix first. */
  function NameLe(): (string, string) -> bool {
    (a: string, b: string) => LexLe(a, b)
  }

  lemma NameLeTotal()
    ensures TotalOrder(NameLe())
  {
    forall a: string, b: string
      ensures LexLe(a, b) || LexLe(b, a)
    {
      if a != b {
        LexLessTotal(a, b);
      }
    }
    forall a: string, b: string | LexLe(a, b) && LexLe(b, a)
      ensures a == b
    {
      if a != b {
        LexLessAsymmetric(a, b);
      }
    }
    forall a: string, b: string, c: string | LexLe(a, b) && LexLe(b, c)
      ensures LexLe(a, c)
    {
      if a != b && b != c {
        LexLessTransitive(a, b, c);
      }
    }
  }

  /** `... ORDER BY name ASC`; rows with equal names stay in table order. */
  function ByName(rows: seq<Feed>): (r: seq<Feed>)
    ensures multiset(r) == multiset(rows)
    ensures Sorted(r, Name, NameLe())
    ensures forall n :: KeyFilter(r, Name, n) == KeyFilter(rows, Name, n)
  {
    NameLeTotal();
    SortPermutes(rows, Name, NameLe());
    SortSorted(rows, Name, NameLe());
    forall n
      ensures KeyFilter(Sort(rows, Name, NameLe()), Name, n) == KeyFilter(rows, Name, n)
    {
      SortStable(rows, Name, NameLe(), n);
    }
    Sort(rows, Name, NameLe())
  }

  function IdIn(ids: seq<Int32>): Feed -> bool {
    (x: Feed) => x.id in ids
  }

  /** `getFeeds()` / `getAllFeedsNow()`: every feed, ordered by name. */
  function AllFeeds(rows: seq<Feed>): (r: seq<Feed>)
    ensures multiset(r) == multiset(rows) && Sorted(r, Name, NameLe())
  {
    ByName(rows)
  }

  /** `getFeedsNow(ids)`: the feeds whose id is listed, ordered by name. */
  function FeedsWithIds(rows: seq<Feed>, ids: seq<Int32>): (r: seq<Feed>)
    ensures multiset(r) == multiset(Where(rows, IdIn(ids))) && Sorted(r, Name, NameLe())
  {
    ByName(Where(rows, IdIn(ids)))
  }

  /** A feed is listed by `getFeedsNow(ids)` exactly when it is in the table with a listed id. */
  lemma FeedsWithIdsMembers(rows: seq<Feed>, ids: seq<Int32>, x: Feed)
    ensures x in FeedsWithIds(rows, ids) <==> x in rows && x.id in ids
  {
    var r := FeedsWithIds(rows, ids);
    assert x in r <==> x in multiset(r);
    assert x in Where(rows, IdIn(ids)) <==> x in multiset(Where(rows, IdIn(ids)));
  }

  /** `getFeedNow(id)`: the row with that id, if there is one. */
  function FeedWithId(rows: seq<Feed>, id: Int32): (r: Option<Feed>)
    ensures r.Some? <==> HasId(rows, id)
    ensures r.Some? ==> r.value in rows && r.value.id == id
  {
    if rows == [] then None
    else if rows[0].id == id then Some(rows[0])
    else
      var r := FeedWithId(rows[1..], id);
      assert HasId(rows, id) <==> HasId(rows[1..], id) by {
        if HasId(rows, id) {
          var i :| 0 <= i < |rows| && rows[i].id == id;
          assert rows[1..][i - 1] == rows[i];
        }
        if HasId(rows[1..], id) {
          var i :| 0 <= i < |rows| - 1 && rows[1..][i].id == id;
          assert rows[i + 1].id == id;
        }
      }
      r
  }

  /** With distinct ids, the row found by id is the only one with that id. */
  lemma FeedWithIdUnique(rows: seq<Feed>, id: Int32, i: nat)
    requires IdsDistinct(rows) && i < |rows| && rows[i].id == id
    ensures FeedWithId(rows, id) == Some(rows[i])
  {
    var r := FeedWithId(rows, id);
    var j :| 0 <= j < |rows| && rows[j] == r.value;
  }

  // ---------------------------------------------------------------------------
  // The table

  class FeedTable {
    var rows: seq<Feed>
    /** The `sqlite_sequence` entry of the `AUTOINCREMENT` key: the largest id ever used. */
    var lastId: int

    ghost predicate Valid()
      reads this
    {
      IdsDistinct(rows) && Counted(rows, lastId)
    }

    constructor()
      ensures rows == [] && lastId == 0 && Valid()
    {
      rows := [];
      lastId := 0;
    }

    /** `insert(feed)`. */
    method Insert(f: Feed)
      modifies this
      requires Valid()
      ensures Valid() && Table(rows, lastId) == InsertedFeed(Table(old(rows), old(lastId)), f)
    {
      var t := InsertedFeed(Table(rows, lastId), f);
      rows, lastId := t.rows, t.lastId;
    }

    /** `update(feed)`. */
    method Update(f: Feed)
      modifies this
      requires Valid()
      ensures Valid() && rows == UpdatedFeed(old(rows), f) && lastId == old(lastId)
    {
      rows := UpdatedFeed(rows, f);
    }

    /** `delete(feedId)`; the posts of the feed are not touched. */
    method DeleteId(feedId: Int32)
      modifies this
      requires Valid()
      ensures Valid() && rows == DeletedFeed(old(rows), feedId) && lastId == old(lastId)
    {
      WhereIdsDistinct(rows, NotId(feedId));
      rows := DeletedFeed(rows, feedId);
    }

    /** `delete(feed)`: the row with the feed's id. */
    method Delete(f: Feed)
      modifies this
      requires Valid()
      ensures Valid() && rows == DeletedFeed(old(rows), f.id) && lastId == old(lastId)
    {
      DeleteId(f.id);
    }

    /** `getAllFeedsNow()`. */
    method GetAllFeedsNow() returns (fs: seq<Feed>)
      ensures fs == AllFeeds(rows)
    {
      fs := AllFeeds(rows);
    }

    /** `getFeedsNow(feedIds)`. */
    method GetFeedsNow(feedIds: seq<Int32>) returns (fs: seq<Feed>)
      ensures fs == FeedsWithIds(rows, feedIds)
    {
      fs := FeedsWithIds(rows, feedIds);
    }

    /** `getFeedNow(feedId)`. */
    method GetFeedNow(feedId: Int32) returns (f: Option<Feed>)
      ensures f == FeedWithId(rows, feedId)
    {
      f := FeedWithId(rows, feedId);
    }
  }
}
