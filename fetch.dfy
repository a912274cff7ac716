// One feed refresh, `loadXmlFromNetwork` in FeedParser.kt: the downloaded text is
// fingerprinted by the hash of its first 1000 UTF-16 units; unchanged text is skipped,
// changed text records the new hash and is trimmed and parsed, the entries are
// inserted, the feed is pruned to 200 posts, and the refresh reports that it is done.

module Fetch {
  import opened JavaLang
  import opened XmlPull
  import opened FeedCommon
  import opened StoreData
  import opened Rows
  import opened PostDao
  import opened FeedDao
  import opened ViewModel
  import FeedParser

  /** How many leading UTF-16 units the change check looks at. */
  const HASH_PREFIX: nat := 1000

  /** The bound handed to `prunePosts` after every refresh. */
  const MAX_POSTS_PER_FEED: Int32 := 200

  // ---------------------------------------------------------------------------
  // The change check

  /** `text.subSequence(0, min(text.length, 1000)).hashCode()`, lengths in UTF-16 units. */
  function ContentHash(text: string): Int32 {
    var u := Utf16(text);
    Wrap32(PolySum(u[..Min(|u|, HASH_PREFIX)]))
  }

  lemma {:induction false} Utf16Append(a: string, b: string)
    ensures Utf16(a + b) == Utf16(a) + Utf16(b)
    decreases |b|
  {
    if b == [] {
      assert a + b == a;
    } else {
      var n := |b| - 1;
      assert (a + b)[..|a + b| - 1] == a + b[..n];
      assert (a + b)[|a + b| - 1] == b[n];
      Utf16Append(a, b[..n]);
    }
  }

  /** Text of at most 1000 units is fingerprinted by its whole `hashCode`. */
  lemma ShortContentHash(text: string)
    requires |Utf16(text)| <= HASH_PREFIX
    ensures ContentHash(text) == HashCode(text)
  {
    assert Utf16(text)[..|Utf16(text)|] == Utf16(text);
  }

  /** Whatever follows the first 1000 units does not change the fingerprint. */
  lemma ContentHashPrefix(a: string, t: string)
    requires |Utf16(a)| >= HASH_PREFIX
    ensures ContentHash(a + t) == ContentHash(a)
  {
    Utf16Append(a, t);
    assert (Utf16(a) + Utf16(t))[..HASH_PREFIX] == Utf16(a)[..HASH_PREFIX];
  }

  // ---------------------------------------------------------------------------
  // Storing the entries

  /** The row an entry becomes: the stored `Post` has no description column. */
  function Stored(p: FeedParser.ParsedPost): Post {
    Post(p.feedId, p.postId, p.title, p.author, p.link, p.timestamp, p.content, p.read)
  }

  function StoredPosts(ps: seq<FeedParser.ParsedPost>): (r: seq<Post>)
    ensures |r| == |ps| && forall i | 0 <= i < |ps| :: r[i] == Stored(ps[i])
  {
    seq(|ps|, i requires 0 <= i < |ps| => Stored(ps[i]))
  }

  /**
   * The table after `addNewPost` for each post in turn: the rows already there stay in
   * place, every post's key is then present, nothing else is added, and keys stay distinct.
   */
  function InsertAll(rows: seq<Post>, ps: seq<Post>): (r: seq<Post>)
    ensures |rows| <= |r| <= |rows| + |ps| && r[..|rows|] == rows
    ensures forall p | p in ps :: HasKey(r, Key(p))
    ensures forall x | x in r :: x in rows || x in ps
    ensures KeysDistinct(rows) ==> KeysDistinct(r)
    decreases |ps|
  {
    if ps == [] then rows
    else
      var init := ps[..|ps| - 1];
      var last := ps[|ps| - 1];
      var s := InsertAll(rows, init);
      InsertGrows(rows, ps, s);
      Inserted(s, last)
  }

  /** Inserting one more post keeps the facts `InsertAll` promises, for the longer list. */
  lemma InsertGrows(rows: seq<Post>, ps: seq<Post>, s: seq<Post>)
    requires ps != []
    requires var init := ps[..|ps| - 1];
             && |rows| <= |s| <= |rows| + |init| && s[..|rows|] == rows
             && (forall p | p in init :: HasKey(s, Key(p)))
             && (forall x | x in s :: x in rows || x in init)
    ensures var r := Inserted(s, ps[|ps| - 1]);
            && |rows| <= |r| <= |rows| + |ps| && r[..|rows|] == rows
            && (forall p | p in ps :: HasKey(r, Key(p)))
            && (forall x | x in r :: x in rows || x in ps)
  {
    var init := ps[..|ps| - 1];
    var last := ps[|ps| - 1];
    assert ps == init + [last];
    var r := Inserted(s, last);
    assert r[..|rows|] == r[..|s|][..|rows|];
    forall p | p in ps
      ensures HasKey(r, Key(p))
    {
      if p != last {
        assert p in init;
        var i :| 0 <= i < |s| && Key(s[i]) == Key(p);
        assert r[i] == s[i];
      }
    }
    assert forall x | x in r :: x in s || x == last;
  }

  lemma InsertAllSnoc(rows: seq<Post>, ps: seq<Post>, p: Post)
    ensures InsertAll(rows, ps + [p]) == Inserted(InsertAll(rows, ps), p)
  {
    assert (ps + [p])[..|ps|] == ps;
  }

  /** One more post of a list inserted: the loop's step. */
  lemma InsertAllStep(rows: seq<Post>, ps: seq<Post>, i: nat)
    requires i < |ps|
    ensures InsertAll(rows, ps[..i + 1]) == Inserted(InsertAll(rows, ps[..i]), ps[i])
  {
    assert ps[..i + 1] == ps[..i] + [ps[i]];
    InsertAllSnoc(rows, ps[..i], ps[i]);
  }

  /** Posts whose keys are all present already change nothing. */
  lemma {:induction false} InsertAllPresent(rows: seq<Post>, ps: seq<Post>)
    requires forall p | p in ps :: HasKey(rows, Key(p))
    ensures InsertAll(rows, ps) == rows
    decreases |ps|
  {
    if ps != [] {
      InsertAllPresent(rows, ps[..|ps| - 1]);
    }
  }

  /** Inserting the same posts again leaves the table as the first time left it. */
  lemma InsertAllAgain(rows: seq<Post>, ps: seq<Post>)
    ensures InsertAll(InsertAll(rows, ps), ps) == InsertAll(rows, ps)
  {
    InsertAllPresent(InsertAll(rows, ps), ps);
  }

  // ---------------------------------------------------------------------------
  // What one refresh does

  /**
   * What the `try` block leaves in `entries`, or the exception that escapes it. No
   * stream, or `FileNotFoundException`, gives no entries; so does unchanged text and an
   * `XmlPullParserException`. Any other parser failure escapes the coroutine.
   */
  function Entries(f: Foreign, lex: string -> seq<Event>, feed: Feed, download: Option<string>): Result<seq<FeedParser.ParsedPost>> {
    match download
    case None => Ok([])
    case Some(text) =>
      if ContentHash(text) == feed.contentHash then Ok([])
      else
        match FeedParser.ParseFeed(f, feed.id, lex(Trim(text)))
        case Ok(ps) => Ok(ps)
        case Err(e) => if e == XmlError then Ok([]) else Err(e)
  }

  /** The hash `updateFeedHash` records, when the text came and its fingerprint changed. */
  function NewHash(feed: Feed, download: Option<string>): Option<Int32> {
    if download.Some? && ContentHash(download.value) != feed.contentHash then Some(ContentHash(download.value))
    else None
  }

  /** The stored feed as the next refresh reads it. */
  function FeedAfterLoad(feed: Feed, download: Option<string>): (r: Feed)
    ensures r.id == feed.id && r.url == feed.url && r.name == feed.name && r.category == feed.category
    ensures download.Some? ==> r.contentHash == ContentHash(download.value)
    ensures download.None? ==> r == feed
  {
    if NewHash(feed, download).Some? then HashUpdated(feed, NewHash(feed, download).value) else feed
  }

  /** The post table after the refresh (the delayed prune included). */
  function AfterLoad(rows: seq<Post>, f: Foreign, lex: string -> seq<Event>, feed: Feed, download: Option<string>): seq<Post> {
    match Entries(f, lex, feed, download)
    case Ok(ps) => PrunedRows(InsertAll(rows, StoredPosts(ps)), feed.id, MAX_POSTS_PER_FEED as nat)
    case Err(_) => rows
  }

  /** Text whose fingerprint is the stored hash is neither parsed nor recorded; the feed is only pruned. */
  lemma UnchangedContentSkips(rows: seq<Post>, f: Foreign, lex: string -> seq<Event>, feed: Feed, text: string)
    requires ContentHash(text) == feed.contentHash
    ensures Entries(f, lex, feed, Some(text)) == Ok([])
    ensures FeedAfterLoad(feed, Some(text)) == feed
    ensures AfterLoad(rows, f, lex, feed, Some(text)) == PrunedRows(rows, feed.id, MAX_POSTS_PER_FEED as nat)
  {
    assert StoredPosts([]) == [];
  }

  /**
   * Once a text has been downloaded, loading the same text again parses nothing,
   * whatever the first load's outcome: the hash is recorded before the parse, so
   * entries lost to a parse error are not read again until the text changes.
   */
  lemma ReloadParsesNothing(f: Foreign, lex: string -> seq<Event>, feed: Feed, text: string)
    ensures Entries(f, lex, FeedAfterLoad(feed, Some(text)), Some(text)) == Ok([])
  {
  }

  /** A change after the first 1000 units goes unnoticed. */
  lemma LateChangeMissed(f: Foreign, lex: string -> seq<Event>, feed: Feed, a: string, t1: string, t2: string)
    requires |Utf16(a)| >= HASH_PREFIX
    ensures Entries(f, lex, FeedAfterLoad(feed, Some(a + t1)), Some(a + t2)) == Ok([])
  {
    ContentHashPrefix(a, t1);
    ContentHashPrefix(a, t2);
  }

  /** A refresh that completed, repeated with the same download, leaves the table as it was. */
  lemma ReloadIsNoop(rows: seq<Post>, f: Foreign, lex: string -> seq<Event>, feed: Feed, download: Option<string>)
    requires KeysDistinct(rows) && Entries(f, lex, feed, download).Ok?
    ensures var once := AfterLoad(rows, f, lex, feed, download);
            AfterLoad(once, f, lex, FeedAfterLoad(feed, download), download) == once
  {
    var ps := Entries(f, lex, feed, download).value;
    var ins := InsertAll(rows, StoredPosts(ps));
    var once := PrunedRows(ins, feed.id, MAX_POSTS_PER_FEED as nat);
    PruneIdempotent(ins, feed.id, MAX_POSTS_PER_FEED as nat);
    assert Entries(f, lex, FeedAfterLoad(feed, download), download) == Ok([]);
    assert InsertAll(once, StoredPosts([])) == once;
  }

  /** After a completed refresh the feed holds at most 200 posts: `min(n, 200)` of the `n` it had after inserting. */
  lemma LoadBound(rows: seq<Post>, f: Foreign, lex: string -> seq<Event>, feed: Feed, download: Option<string>)
    requires KeysDistinct(rows) && Entries(f, lex, feed, download).Ok?
    ensures var ins := InsertAll(rows, StoredPosts(Entries(f, lex, feed, download).value));
            |Where(AfterLoad(rows, f, lex, feed, download), OfFeed(feed.id))|
              == Min(|Where(ins, OfFeed(feed.id))|, MAX_POSTS_PER_FEED as nat) <= MAX_POSTS_PER_FEED as nat
  {
    var ins := InsertAll(rows, StoredPosts(Entries(f, lex, feed, download).value));
    PruneCount(ins, feed.id, MAX_POSTS_PER_FEED as nat);
  }

  /** The loop `for (entry in entries) viewModel.addNewPost(entry)`. */
  method AddEntries(vm: ArseViewModel, posts: seq<Post>)
    modifies vm.postDao
    requires vm.Valid()
    ensures vm.Valid() && vm.postDao.rows == InsertAll(old(vm.postDao.rows), posts)
  {
    ghost var rows0 := vm.postDao.rows;
    var i := 0;
    while i < |posts|
      invariant 0 <= i <= |posts|
      invariant vm.Valid()
      invariant vm.postDao.rows == InsertAll(rows0, posts[..i])
    {
      InsertAllStep(rows0, posts, i);
      vm.AddNewPost(posts[i]);
      i := i + 1;
    }
    assert posts[..i] == posts;
  }

  /**
   * `loadXmlFromNetwork(feed, ...)`, with the download (`None` for no stream or a
   * missing page) and the lexer as parameters. `done` is whether `doneCallback` runs:
   * an exception that escapes the `try` ends the coroutine after the hash update and
   * before any insert or prune.
   */
  method LoadXmlFromNetwork(vm: ArseViewModel, f: Foreign, lex: string -> seq<Event>, feed: Feed, download: Option<string>)
    returns (done: bool)
    modifies vm.postDao, vm.feedDao
    requires vm.Valid()
    ensures vm.Valid()
    ensures done <==> Entries(f, lex, feed, download).Ok?
    ensures vm.postDao.rows == AfterLoad(old(vm.postDao.rows), f, lex, feed, download)
    ensures vm.feedDao.rows == if NewHash(feed, download).Some?
                               then UpdatedFeed(old(vm.feedDao.rows), FeedAfterLoad(feed, download))
                               else old(vm.feedDao.rows)
    ensures vm.feedDao.lastId == old(vm.feedDao.lastId)
  {
    var entries: seq<FeedParser.ParsedPost> := [];
    if download.Some? {
      var text := download.value;
      var feedHash := ContentHash(text);
      if feedHash != feed.contentHash {
        vm.UpdateFeedHash(feed, feedHash);
        var r := FeedParser.Parse(f, feed.id, lex(Trim(text)));
        match r {
          case Ok(ps) =>
            entries := ps;
          case Err(e) =>
            if e != XmlError {
              return false;
            }
        }
      }
    }
    assert Entries(f, lex, feed, download) == Ok(entries);
    AddEntries(vm, StoredPosts(entries));
    var pruned := vm.PrunePosts(feed.id, MAX_POSTS_PER_FEED);
    done := true;
  }
}
