// The older `FeedParser` of the example tree: the same cursor readers, but its
// loops stop at the first end tag they meet, and it builds an `Item` instead of a
// post. `readText`, `skip` and `readLink` are the XmlPull ones; `readDescription`
// and `readId` are word for word those of the current parser.

module LegacyParser {
  import opened JavaLang
  import opened XmlPull
  import opened FeedCommon
  import FeedParser

  /** The record `readEntry` builds: the key is the feed's address, not a feed id. */
  datatype Item = Item(
    feedUrl: string,
    postId: Int32,
    title: string,
    author: string,
    link: string,
    timestamp: Int64,
    content: string,
    read: bool)

  /** The local variables of `readEntry`; a field is `None` while still null. */
  datatype ItemFields = ItemFields(
    title: Option<string>,
    author: Option<string>,
    description: Option<string>,
    link: Option<string>,
    postId: Option<Int32>,
    timestamp: Int64,
    content: Option<string>)

  /** The fields before any child has been read; the timestamp starts at 0. */
  const NO_ITEM_FIELDS: ItemFields := ItemFields(None, None, None, None, None, 0, None)

  /** The two patterns of this `parseDate`: RFC 822 style, then ISO-8601 with a literal `Z`. */
  const LEGACY_DATE_FORMATS: seq<string> := [
    "EEE, dd MMM yyyy HH:mm:ss Z",
    "yyyy-MM-dd'T'HH:mm:ss'Z'"
  ]

  /** What this `parseDate` returns when neither pattern parses. */
  const LEGACY_NO_DATE: Int64 := -1

  // ---------------------------------------------------------------------------
  // simplifyTag

  /** The same ordered rules as the current parser's, but without the `media` guard. */
  function SimplifyTag(tag: string): string {
    if Contains(tag, "id") then "id"
    else if Contains(tag, "creator") then "author"
    else if Contains(tag, "date") then "pubDate"
    else if Contains(tag, "content") then "content"
    else tag
  }

  /**
   * Media RSS's `media:content` counts as content here, where the current parser
   * passes it through and skips it; `content:encoded` is content in both.
   */
  lemma SimplifyTagMediaContent()
    ensures SimplifyTag("media:content") == "content"
    ensures FeedParser.SimplifyTag("media:content") == "media:content"
    ensures SimplifyTag("content:encoded") == "content"
  {
    SimplifyTagMedia();
    FeedParser.SimplifyTagContent();
    SimplifyTagEncoded();
  }

  lemma SimplifyTagMedia()
    ensures SimplifyTag("media:content") == "content"
  {
    NotContainsByPair("media:content", "id");
    NotContainsByPair("media:content", "creator");
    NotContainsByPair("media:content", "date");
    assert OccursAt("media:content", "content", 6);
  }

  lemma SimplifyTagEncoded()
    ensures SimplifyTag("content:encoded") == "content"
  {
    NotContainsByPair("content:encoded", "id");
    NotContainsByPair("content:encoded", "creator");
    NotContainsByPair("content:encoded", "date");
    assert OccursAt("content:encoded", "content", 0);
  }

  /** Both parsers agree on every tag that does not contain "content". */
  lemma SimplifyTagAgrees(tag: string)
    requires !Contains(tag, "content")
    ensures SimplifyTag(tag) == FeedParser.SimplifyTag(tag)
  {
  }

  // ---------------------------------------------------------------------------
  // The read helpers

  /** `readTitle()`: must start on `title` and end on `</title>`; the text is not stripped of HTML. */
  function ReadTitle(evs: seq<Event>, p: nat): (r: Result<(string, nat)>)
    requires p < |evs|
    ensures r.Ok? ==> Within(evs, p, r.value.1)
    ensures r.Ok? <==> evs[p].StartTag? && evs[p].name == "title" && ReadText(evs, p).Ok?
                       && evs[ReadText(evs, p).value.1].EndTag? && evs[ReadText(evs, p).value.1].name == "title"
    ensures r.Ok? ==> r == ReadText(evs, p)
  {
    if !(evs[p].StartTag? && evs[p].name == "title") then Err(XmlError)
    else
      var t :- ReadText(evs, p);
      if evs[t.1].EndTag? && evs[t.1].name == "title" then Ok(t) else Err(XmlError)
  }

  /** `readTimestamp()`: the element text through the two-pattern `parseDate`. */
  function ReadTimestamp(f: Foreign, evs: seq<Event>, p: nat): (r: Result<(Int64, nat)>)
    requires p < |evs|
    ensures r.Ok? ==> Within(evs, p, r.value.1)
    ensures r.Ok? ==> ReadText(evs, p).Ok?
                      && r.value.0 == FirstParse(f, LEGACY_DATE_FORMATS, ReadText(evs, p).value.0, LEGACY_NO_DATE)
  {
    var t :- ReadText(evs, p);
    Ok((FirstParse(f, LEGACY_DATE_FORMATS, t.0, LEGACY_NO_DATE), t.1))
  }

  /**
   * A date in neither pattern gives -1, and one the RFC 822 pattern parses is never
   * tried against the ISO pattern.
   */
  lemma ReadTimestampFormats(f: Foreign, s: string)
    ensures f.parseWith(LEGACY_DATE_FORMATS[0], s).None? && f.parseWith(LEGACY_DATE_FORMATS[1], s).None?
            ==> FirstParse(f, LEGACY_DATE_FORMATS, s, LEGACY_NO_DATE) == -1
    ensures f.parseWith(LEGACY_DATE_FORMATS[0], s).Some?
            ==> FirstParse(f, LEGACY_DATE_FORMATS, s, LEGACY_NO_DATE) == f.parseWith(LEGACY_DATE_FORMATS[0], s).value
    ensures f.parseWith(LEGACY_DATE_FORMATS[0], s).None? && f.parseWith(LEGACY_DATE_FORMATS[1], s).Some?
            ==> FirstParse(f, LEGACY_DATE_FORMATS, s, LEGACY_NO_DATE) == f.parseWith(LEGACY_DATE_FORMATS[1], s).value
  {
    FirstParseIsFirst(f, LEGACY_DATE_FORMATS, s, LEGACY_NO_DATE);
    assert FirstSuccess(f, LEGACY_DATE_FORMATS, s, 0) || f.parseWith(LEGACY_DATE_FORMATS[0], s).None?;
    if f.parseWith(LEGACY_DATE_FORMATS[0], s).None? && f.parseWith(LEGACY_DATE_FORMATS[1], s).Some? {
      assert FirstSuccess(f, LEGACY_DATE_FORMATS, s, 1);
    }
  }

  // ---------------------------------------------------------------------------
  // readEntry

  /**
   * One child of an item, dispatched on its simplified tag name. Author and
   * content are plain `readText()`, and a later content replaces an earlier one.
   */
  function Handle(f: Foreign, evs: seq<Event>, c: nat, fs: ItemFields): (r: Result<(ItemFields, nat)>)
    requires c < |evs| && evs[c].StartTag?
    ensures r.Ok? ==> c < r.value.1 < |evs|
  {
    var tag := SimplifyTag(evs[c].name);
    if tag == "id" then
      var v :- FeedParser.ReadId(evs, c);
      Ok((fs.(postId := Some(v.0)), v.1))
    else if tag == "title" then
      var v :- ReadTitle(evs, c);
      Ok((fs.(title := Some(v.0)), v.1))
    else if tag == "author" then
      var v :- ReadText(evs, c);
      Ok((fs.(author := Some(v.0)), v.1))
    else if tag == "description" then
      var v :- FeedParser.ReadDescription(evs, c);
      Ok((fs.(description := Some(v.0)), v.1))
    else if tag == "link" then
      var v :- ReadLink(evs, c);
      Ok((fs.(link := Some(v.0)), v.1))
    else if tag == "pubDate" then
      var v :- ReadTimestamp(f, evs, c);
      Ok((fs.(timestamp := v.0), v.1))
    else if tag == "content" then
      var v :- ReadText(evs, c);
      Ok((fs.(content := Some(v.0)), v.1))
    else
      var m :- SkipEnd(evs, c);
      Ok((fs, m))
  }

  /** A content child always replaces the content read so far, blank or not. */
  lemma ContentOverwrites(f: Foreign, evs: seq<Event>, c: nat, fs: ItemFields)
    requires c < |evs| && evs[c].StartTag? && SimplifyTag(evs[c].name) == "content"
    ensures Handle(f, evs, c, fs).Ok? <==> ReadText(evs, c).Ok?
    ensures Handle(f, evs, c, fs).Ok? ==>
              Handle(f, evs, c, fs).value.0 == fs.(content := Some(ReadText(evs, c).value.0))
  {
  }

  /**
   * The loop of `readEntry` from cursor `p`: it ends on the first end tag it meets,
   * at whatever depth.
   */
  function EntryLoop(f: Foreign, evs: seq<Event>, p: nat, fs: ItemFields): (r: Result<(ItemFields, nat)>)
    requires p < |evs|
    ensures r.Ok? ==> p < r.value.1 < |evs| && evs[r.value.1].EndTag?
    decreases |evs| - p
  {
    var q :- Next(evs, p);
    if evs[q].EndTag? then Ok((fs, q))
    else if !evs[q].StartTag? then EntryLoop(f, evs, q, fs)
    else
      var h :- Handle(f, evs, q, fs);
      EntryLoop(f, evs, h.1, h.0)
  }

  /**
   * From any event but END_DOCUMENT, over text, the loop stops at the first end tag
   * it meets, whatever element that tag closes: the fields are those it started with.
   */
  lemma {:induction false} EntryLoopFirstEnd(f: Foreign, evs: seq<Event>, p: nat, e: nat, fs: ItemFields)
    requires p < e < |evs| && !evs[p].EndDoc? && evs[e].EndTag?
    requires forall q | p < q < e :: evs[q].Text?
    ensures EntryLoop(f, evs, p, fs) == Ok((fs, e))
    decreases e - p
  {
    if p + 1 < e {
      EntryLoopFirstEnd(f, evs, p + 1, e, fs);
    }
  }

  /**
   * From any event but END_DOCUMENT, over text, the first start tag the loop meets
   * is handed to `Handle`, and the loop goes on from where the handler stopped; a
   * handler's error ends the entry.
   */
  lemma {:induction false} EntryLoopNextChild(f: Foreign, evs: seq<Event>, p: nat, c: nat, fs: ItemFields)
    requires p < c < |evs| && !evs[p].EndDoc? && evs[c].StartTag?
    requires forall q | p < q < c :: evs[q].Text?
    ensures Handle(f, evs, c, fs).Err? ==> EntryLoop(f, evs, p, fs) == Err(Handle(f, evs, c, fs).error)
    ensures Handle(f, evs, c, fs).Ok? ==>
              EntryLoop(f, evs, p, fs) == EntryLoop(f, evs, Handle(f, evs, c, fs).value.1, Handle(f, evs, c, fs).value.0)
    decreases c - p
  {
    if p + 1 < c {
      EntryLoopNextChild(f, evs, p + 1, c, fs);
    }
  }

  /** `(title + timestamp.toString()).hashCode()` for an item without an id. */
  function IdSource(title: string, timestamp: Int64): string {
    title + LongToString(timestamp)
  }

  /**
   * The defaulting pass at the end of `readEntry`: author and link default to "",
   * content to the description and then to "", and a missing title ends in the
   * NullPointerException of `title!!`.
   */
  function Assemble(feedUrl: string, fs: ItemFields): (r: Result<Item>)
    ensures r.Err? <==> fs.title.None?
    ensures r.Err? ==> r.error == NullPointer
  {
    if fs.title.None? then Err(NullPointer)
    else
      var title := fs.title.value;
      var postId := if fs.postId.Some? then fs.postId.value else HashCode(IdSource(title, fs.timestamp));
      var content := if fs.content.Some? then fs.content.value
                     else if fs.description.Some? then fs.description.value else "";
      Ok(Item(feedUrl, postId, title, fs.author.GetOr(""), fs.link.GetOr(""), fs.timestamp, content, false))
  }

  /**
   * What `readEntry` promises of the item it builds: the fields it read are kept,
   * author and link default to "", the content falls back to the description and
   * then to "", and the item is unread.
   */
  lemma AssembleFields(feedUrl: string, fs: ItemFields)
    requires fs.title.Some?
    ensures Assemble(feedUrl, fs).Ok?
    ensures var item := Assemble(feedUrl, fs).value;
      && item.feedUrl == feedUrl && item.title == fs.title.value && item.timestamp == fs.timestamp && !item.read
      && item.author == (if fs.author.Some? then fs.author.value else "")
      && item.link == (if fs.link.Some? then fs.link.value else "")
      && item.content == (if fs.content.Some? then fs.content.value
                          else if fs.description.Some? then fs.description.value else "")
      && item.postId == (if fs.postId.Some? then fs.postId.value
                         else HashCode(IdSource(fs.title.value, fs.timestamp)))
  {
  }

  /**
   * Without an id, two items with the same title get ids hashed from different
   * strings when their timestamps differ.
   */
  lemma SyntheticId(title: string, s: Int64, t: Int64)
    ensures s != t ==> IdSource(title, s) != IdSource(title, t)
  {
    if s != t && IdSource(title, s) == IdSource(title, t) {
      assert IdSource(title, s)[|title|..] == LongToString(s);
      assert IdSource(title, t)[|title|..] == LongToString(t);
      LongToStringInjective(s, t);
    }
  }

  /** `readEntry()` on the item whose start tag is at `a`: the item and the final cursor. */
  function EntryEnd(feedUrl: string, f: Foreign, evs: seq<Event>, a: nat): (r: Result<(Item, nat)>)
    requires a < |evs|
    ensures r.Ok? ==> a < r.value.1 < |evs| && evs[r.value.1].EndTag?
  {
    var r :- EntryLoop(f, evs, a, NO_ITEM_FIELDS);
    var item :- Assemble(feedUrl, r.0);
    Ok((item, r.1))
  }

  // ---------------------------------------------------------------------------
  // When the first end tag is the item's own

  /**
   * A child that holds at most one text and nothing else: its end tag is the next
   * event, or the one after its text, and it repeats the start tag's name.
   */
  predicate FlatAt(evs: seq<Event>, c: nat) {
    c + 1 < |evs| && evs[c].StartTag?
    && (evs[c + 1].EndTag? || (c + 2 < |evs| && evs[c + 1].Text? && evs[c + 2].EndTag?))
    && evs[FlatEnd(evs, c)].name == evs[c].name
  }

  /** Where a flat child ends. */
  function FlatEnd(evs: seq<Event>, c: nat): nat
    requires c + 1 < |evs|
  {
    if evs[c + 1].EndTag? then c + 1 else c + 2
  }

  /** A flat child's end tag closes it. */
  lemma FlatCloses(evs: seq<Event>, c: nat)
    requires FlatAt(evs, c)
    ensures Closes(evs, c, FlatEnd(evs, c))
  {
    assert Open(evs, c + 1) == Open(evs, c) + Delta(evs[c + 1]);
    if !evs[c + 1].EndTag? {
      assert Open(evs, c + 2) == Open(evs, c + 1) + Delta(evs[c + 2]);
    }
  }

  /** Every handler reads a flat child up to its own end tag. */
  lemma FlatChildRead(f: Foreign, evs: seq<Event>, c: nat, fs: ItemFields)
    requires FlatAt(evs, c)
    ensures Handle(f, evs, c, fs).Ok? ==> Handle(f, evs, c, fs).value.1 == FlatEnd(evs, c)
  {
    FlatCloses(evs, c);
    FlatText(evs, c);
    var tag := SimplifyTag(evs[c].name);
    if tag == "link" {
      FlatLink(evs, c);
    } else if tag !in {"id", "title", "author", "description", "pubDate", "content"} {
      SkipEndCloses(evs, c);
    }
  }

  /** `readText()` on a flat child stops on its end tag. */
  lemma FlatText(evs: seq<Event>, c: nat)
    requires FlatAt(evs, c)
    ensures ReadText(evs, c).Ok? ==> ReadText(evs, c).value.1 == FlatEnd(evs, c)
  {
    if evs[c + 1].Text? {
      assert TagFrom(evs, c + 2) == Ok(c + 2);
    }
  }

  /** `readLink()` on a flat child stops on its end tag, with or without `href`. */
  lemma FlatLink(evs: seq<Event>, c: nat)
    requires FlatAt(evs, c)
    ensures ReadLink(evs, c).Ok? ==> ReadLink(evs, c).value.1 == FlatEnd(evs, c)
  {
    FlatText(evs, c);
    if evs[c + 1].Text? && IsSpaceText(evs[c + 1]) {
      assert TagFrom(evs, c + 1) == Ok(c + 2);
    }
  }

  /** Every child start tag directly inside the item at `a` opens a flat child. */
  predicate FlatItem(evs: seq<Event>, a: nat) {
    a < |evs|
    && forall c | a < c < |evs| && evs[c].StartTag? && Open(evs, c) == Open(evs, a) + 1
                  && (forall i | a <= i < c :: Open(evs, i) >= Open(evs, a))
       :: FlatAt(evs, c)
  }

  /**
   * The loop of `readEntry` relies on each handler consuming its child's end tag:
   * when every child of the item is flat, the first end tag it meets is the item's.
   */
  lemma {:induction false} EntryLoopCloses(f: Foreign, evs: seq<Event>, a: nat, p: nat, fs: ItemFields)
    requires a <= p < |evs| && evs[a].StartTag? && FlatItem(evs, a)
    requires Open(evs, p) == Open(evs, a)
    requires forall i | a <= i <= p :: Open(evs, i) >= Open(evs, a)
    requires Live(evs, a, p)
    ensures EntryLoop(f, evs, p, fs).Ok? ==> Closes(evs, a, EntryLoop(f, evs, p, fs).value.1)
    decreases |evs| - p, 1
  {
    if Next(evs, p).Ok? {
      var q := p + 1;
      assert Open(evs, q) == Open(evs, p) + Delta(evs[q]);
      if evs[q].EndTag? {
        assert Open(evs, q) == Open(evs, a) - 1;
      } else if !evs[q].StartTag? {
        EntryLoopCloses(f, evs, a, q, fs);
      } else {
        FlatChildThenLoop(f, evs, a, p, fs);
      }
    }
  }

  /** The case of `EntryLoopCloses` where the loop meets a child's start tag. */
  lemma {:induction false} FlatChildThenLoop(f: Foreign, evs: seq<Event>, a: nat, p: nat, fs: ItemFields)
    requires a <= p && p + 1 < |evs| && evs[a].StartTag? && FlatItem(evs, a)
    requires !evs[p].EndDoc? && evs[p + 1].StartTag?
    requires Open(evs, p) == Open(evs, a)
    requires forall i | a <= i <= p :: Open(evs, i) >= Open(evs, a)
    requires Live(evs, a, p)
    ensures EntryLoop(f, evs, p, fs).Ok? ==> Closes(evs, a, EntryLoop(f, evs, p, fs).value.1)
    decreases |evs| - p, 0
  {
    var q := p + 1;
    FlatChildAt(evs, a, p);
    var h := Handle(f, evs, q, fs);
    if h.Ok? {
      FlatChildRead(f, evs, q, fs);
      FlatCloses(evs, q);
      var e := h.value.1;
      ChildExtends(evs, a, p, e);
      EntryLoopCloses(f, evs, a, e, h.value.0);
    }
  }

  /** A child start tag met at the item's own depth is flat. */
  lemma FlatChildAt(evs: seq<Event>, a: nat, p: nat)
    requires a <= p && p + 1 < |evs| && FlatItem(evs, a) && evs[p + 1].StartTag?
    requires Open(evs, p) == Open(evs, a)
    requires forall i | a <= i <= p :: Open(evs, i) >= Open(evs, a)
    ensures FlatAt(evs, p + 1)
  {
    var c := p + 1;
    assert Open(evs, c) == Open(evs, a) + 1;
    assert forall i | a <= i < c :: Open(evs, i) >= Open(evs, a);
  }

  /** After a child `p + 1 .. e` the loop is back at the item's depth, still inside it. */
  lemma ChildExtends(evs: seq<Event>, a: nat, p: nat, e: nat)
    requires a <= p && Closes(evs, p + 1, e) && !evs[p].EndDoc?
    requires Open(evs, p) == Open(evs, a)
    requires forall i | a <= i <= p :: Open(evs, i) >= Open(evs, a)
    requires Live(evs, a, p)
    ensures Open(evs, e) == Open(evs, a)
    ensures forall i | a <= i <= e :: Open(evs, i) >= Open(evs, a)
    ensures Live(evs, a, e)
  {
    assert Open(evs, p + 1) == Open(evs, a) + 1;
  }

  /** For an item whose children are all flat, `readEntry()` ends on the item's own end tag. */
  lemma EntryEndCloses(feedUrl: string, f: Foreign, evs: seq<Event>, a: nat)
    requires FlatItem(evs, a) && evs[a].StartTag?
    ensures EntryEnd(feedUrl, f, evs, a).Ok? ==> Closes(evs, a, EntryEnd(feedUrl, f, evs, a).value.1)
  {
    EntryLoopCloses(f, evs, a, a, NO_ITEM_FIELDS);
  }

  /** The `when (simplifyTag(parser.name))` dispatch in `readEntry`. */
  method HandleChild(f: Foreign, evs: seq<Event>, c: nat, fs: ItemFields) returns (r: Result<(ItemFields, nat)>)
    requires c < |evs| && evs[c].StartTag?
    ensures r == Handle(f, evs, c, fs)
  {
    var tag := SimplifyTag(evs[c].name);
    if tag == "id" {
      var v := FeedParser.ReadId(evs, c);
      if v.Err? { return Err(v.error); }
      return Ok((fs.(postId := Some(v.value.0)), v.value.1));
    } else if tag == "title" {
      var v := ReadTitle(evs, c);
      if v.Err? { return Err(v.error); }
      return Ok((fs.(title := Some(v.value.0)), v.value.1));
    } else if tag == "author" {
      var v := ReadText(evs, c);
      if v.Err? { return Err(v.error); }
      return Ok((fs.(author := Some(v.value.0)), v.value.1));
    } else if tag == "description" {
      var v := FeedParser.ReadDescription(evs, c);
      if v.Err? { return Err(v.error); }
      return Ok((fs.(description := Some(v.value.0)), v.value.1));
    } else if tag == "link" {
      var v := ReadLink(evs, c);
      if v.Err? { return Err(v.error); }
      return Ok((fs.(link := Some(v.value.0)), v.value.1));
    } else if tag == "pubDate" {
      var t := ReadText(evs, c);
      if t.Err? { return Err(t.error); }
      var ts := ParseDate(f, LEGACY_DATE_FORMATS, t.value.0, LEGACY_NO_DATE);
      return Ok((fs.(timestamp := ts), t.value.1));
    } else if tag == "content" {
      var v := ReadText(evs, c);
      if v.Err? { return Err(v.error); }
      return Ok((fs.(content := Some(v.value.0)), v.value.1));
    } else {
      var m := Skip(evs, c);
      if m.Err? { return Err(m.error); }
      return Ok((fs, m.value));
    }
  }

  /** `readEntry()`: reads children until the first end tag its loop meets, then builds the item. */
  method ReadEntry(feedUrl: string, f: Foreign, evs: seq<Event>, a: nat) returns (r: Result<(Item, nat)>)
    requires a < |evs|
    ensures r == EntryEnd(feedUrl, f, evs, a)
    ensures r.Ok? ==> evs[r.value.1].EndTag?
  {
    var fs := NO_ITEM_FIELDS;
    var p := a;
    var n := Next(evs, p);
    while n.Ok? && !evs[n.value].EndTag?
      invariant p < |evs| && n == Next(evs, p)
      invariant EntryLoop(f, evs, p, fs) == EntryLoop(f, evs, a, NO_ITEM_FIELDS)
      decreases |evs| - p
    {
      var q := n.value;
      if evs[q].StartTag? {
        var h := HandleChild(f, evs, q, fs);
        if h.Err? { return Err(h.error); }
        fs, p := h.value.0, h.value.1;
      } else {
        p := q;
      }
      n := Next(evs, p);
    }
    if n.Err? { return Err(n.error); }
    var item := Assemble(feedUrl, fs);
    if item.Err? { return Err(item.error); }
    return Ok((item.value, n.value));
  }

  // ---------------------------------------------------------------------------
  // readFeed and parse

  /**
   * The loop of `readFeed` from cursor `p`: it ends on the first end tag it meets
   * (a `</channel>`, say), steps into `channel` with one extra `next()`, reads
   * `item` and `entry` as items and skips every other start tag as a whole subtree.
   */
  function FeedLoop(feedUrl: string, f: Foreign, evs: seq<Event>, p: nat): Result<seq<Item>>
    requires p < |evs|
    decreases |evs| - p
  {
    var q :- Next(evs, p);
    if evs[q].EndTag? then Ok([])
    else if !evs[q].StartTag? then FeedLoop(feedUrl, f, evs, q)
    else if evs[q].name == "channel" then
      var q2 :- Next(evs, q);
      FeedLoop(feedUrl, f, evs, q2)
    else if evs[q].name == "item" || evs[q].name == "entry" then
      var e :- EntryEnd(feedUrl, f, evs, q);
      Prepend([e.0], FeedLoop(feedUrl, f, evs, e.1))
    else
      var e :- SkipEnd(evs, q);
      FeedLoop(feedUrl, f, evs, e)
  }

  /** `readFeed()` from cursor `p0`. */
  method ReadFeed(feedUrl: string, f: Foreign, evs: seq<Event>, p0: nat) returns (r: Result<seq<Item>>)
    requires p0 < |evs|
    ensures r == FeedLoop(feedUrl, f, evs, p0)
  {
    var entries: seq<Item> := [];
    var p := p0;
    var n := Next(evs, p);
    PrependEmpty(FeedLoop(feedUrl, f, evs, p0));
    while n.Ok? && !evs[n.value].EndTag?
      invariant p < |evs| && n == Next(evs, p)
      invariant FeedLoop(feedUrl, f, evs, p0) == Prepend(entries, FeedLoop(feedUrl, f, evs, p))
      decreases |evs| - p
    {
      var q := n.value;
      if !evs[q].StartTag? {
        p := q;
      } else if evs[q].name == "channel" {
        var n2 := Next(evs, q);
        if n2.Err? { return Err(n2.error); }
        p := n2.value;
      } else if evs[q].name == "item" || evs[q].name == "entry" {
        var e := ReadEntry(feedUrl, f, evs, q);
        if e.Err? { return Err(e.error); }
        PrependPrepend(entries, [e.value.0], FeedLoop(feedUrl, f, evs, e.value.1));
        entries, p := entries + [e.value.0], e.value.1;
      } else {
        var e := Skip(evs, q);
        if e.Err? { return Err(e.error); }
        p := e.value;
      }
      n := Next(evs, p);
    }
    if n.Err? { return Err(n.error); }
    assert entries + [] == entries;
    return Ok(entries);
  }

  /** `parse()`: `nextTag()` to the root element, then `readFeed()`. */
  function ParseFeed(feedUrl: string, f: Foreign, evs: seq<Event>): Result<seq<Item>> {
    if evs == [] then Err(XmlError)
    else
      var root :- TagFrom(evs, 0);
      FeedLoop(feedUrl, f, evs, root)
  }

  method Parse(feedUrl: string, f: Foreign, evs: seq<Event>) returns (r: Result<seq<Item>>)
    ensures r == ParseFeed(feedUrl, f, evs)
  {
    if evs == [] {
      return Err(XmlError);
    }
    var root := TagFrom(evs, 0);
    if root.Err? {
      return Err(root.error);
    }
    r := ReadFeed(feedUrl, f, evs, root.value);
  }

  // ---------------------------------------------------------------------------
  // A minified RSS document

  /**
   * `<rss><channel><item><title>A</title></item><item><title>B</title></item></channel></rss>`
   * without white space between the tags.
   */
  function MinifiedRss(): seq<Event> {
    [StartTag("rss", NONE), StartTag("channel", NONE),
     StartTag("item", NONE), StartTag("title", NONE), Text("A"), EndTag("title", NONE), EndTag("item", NONE),
     StartTag("item", NONE), StartTag("title", NONE), Text("B"), EndTag("title", NONE), EndTag("item", NONE),
     EndTag("channel", NONE), EndTag("rss", NONE), EndDoc]
  }

  /**
   * Neither item is read: the extra `next()` after `<channel>` steps over the first
   * `<item>`, its `title` is skipped as an unknown element, and the loop ends on the
   * `</item>` that follows, before the second item.
   */
  lemma MinifiedRssReadsNothing(feedUrl: string, f: Foreign)
    ensures ParseFeed(feedUrl, f, MinifiedRss()) == Ok([])
  {
    var evs := MinifiedRss();
    assert TagFrom(evs, 0) == Ok(0);
    MinifiedTitleSkipped();
    assert FeedLoop(feedUrl, f, evs, 5) == Ok([]);
    assert FeedLoop(feedUrl, f, evs, 2) == Ok([]);
  }

  /** `skip()` on the first `<title>` ends on its `</title>`. */
  lemma MinifiedTitleSkipped()
    ensures SkipEnd(MinifiedRss(), 3) == Ok(5)
  {
    var evs := MinifiedRss();
    assert SkipLoop(evs, 4, 1) == Ok(5);
  }

  // ---------------------------------------------------------------------------
  // An Atom person construct

  const NONE: map<string, string> := map[]

  /**
   * `<feed><entry><author><name>A</name></author><title>T</title></entry></feed>`:
   * `readText()` on `author` stops on `<name>`, so `</name>` ends the entry before
   * its title is read.
   */
  function AtomAuthorFirst(): seq<Event> {
    [StartTag("feed", NONE), StartTag("entry", NONE), StartTag("author", NONE), StartTag("name", NONE),
     Text("A"), EndTag("name", NONE), EndTag("author", NONE), StartTag("title", NONE), Text("T"),
     EndTag("title", NONE), EndTag("entry", NONE), EndTag("feed", NONE), EndDoc]
  }

  /** The whole parse fails with the NullPointerException of `title!!`. */
  lemma AtomAuthorFirstFails(feedUrl: string, f: Foreign)
    ensures ParseFeed(feedUrl, f, AtomAuthorFirst()) == Err(NullPointer)
  {
    var evs := AtomAuthorFirst();
    AtomEntryEndsAtName(f);
    assert TagFrom(evs, 0) == Ok(0);
  }

  /** The entry is read up to `</name>`, with an empty author and no title. */
  lemma AtomEntryEndsAtName(f: Foreign)
    ensures EntryLoop(f, AtomAuthorFirst(), 1, NO_ITEM_FIELDS) == Ok((NO_ITEM_FIELDS.(author := Some("")), 5))
  {
    var evs := AtomAuthorFirst();
    AtomAuthorHandled(f);
    AtomNameEndsLoop(f);
    assert Next(evs, 1) == Ok(2) && evs[2].StartTag?;
    LoopHandles(f, evs, 1, NO_ITEM_FIELDS);
  }

  /** One turn of the entry loop that hands a start tag to `Handle`. */
  lemma LoopHandles(f: Foreign, evs: seq<Event>, p: nat, fs: ItemFields)
    requires p + 1 < |evs| && Next(evs, p) == Ok(p + 1) && evs[p + 1].StartTag?
    ensures var h := Handle(f, evs, p + 1, fs);
            h.Ok? ==> EntryLoop(f, evs, p, fs) == EntryLoop(f, evs, h.value.1, h.value.0)
  {
  }

  /** `readText()` on `<author>` finds `<name>`, not text: the author is empty. */
  lemma AtomAuthorHandled(f: Foreign)
    ensures Handle(f, AtomAuthorFirst(), 2, NO_ITEM_FIELDS) == Ok((NO_ITEM_FIELDS.(author := Some("")), 3))
  {
    var evs := AtomAuthorFirst();
    TagNames();
    assert ReadText(evs, 2) == Ok(("", 3));
  }

  /** From `<name>` the loop passes the text and stops on `</name>`. */
  lemma AtomNameEndsLoop(f: Foreign)
    ensures var fs := NO_ITEM_FIELDS.(author := Some(""));
            EntryLoop(f, AtomAuthorFirst(), 3, fs) == Ok((fs, 5))
  {
    var evs := AtomAuthorFirst();
    var fs := NO_ITEM_FIELDS.(author := Some(""));
    assert Next(evs, 3) == Ok(4);
    assert EntryLoop(f, evs, 4, fs) == Ok((fs, 5));
  }

  lemma TagNames()
    ensures SimplifyTag("author") == "author"
  {
    NotContainsByPair("author", "id");
    NotContainsByPair("author", "creator");
    NotContainsByPair("author", "date");
    NotContainsByPair("author", "content");
  }
}
