// `FeedParser` of the current app: turns an RSS 2.0 / Atom event stream into posts.
//
// The cursor readers (`readText`, `skip`, `readLink`) are in XmlPull; the library
// calls (Jsoup, SimpleDateFormat) are the `Foreign` values of FeedCommon.

module FeedParser {
  import opened JavaLang
  import opened XmlPull
  import opened FeedCommon

  /** The record `readEntry` builds: the parser's field set, which has a description. */
  datatype ParsedPost = ParsedPost(
    feedId: Int32,
    postId: Int32,
    title: string,
    author: string,
    link: string,
    timestamp: Int64,
    description: string,
    content: string,
    read: bool)

  /** The local variables of `readEntry`; a field is `None` while still null. */
  datatype EntryFields = EntryFields(
    title: Option<string>,
    author: Option<string>,
    link: Option<string>,
    postId: Option<Int32>,
    timestamp: Int64,
    description: Option<string>,
    content: Option<string>)

  /** The fields before any child has been read; the timestamp starts at 0. */
  const NO_FIELDS: EntryFields := EntryFields(None, None, None, None, 0, None, None)

  /** The patterns `parseDate` tries, in order: RFC 822 style, then ISO-8601 variants. */
  const DATE_FORMATS: seq<string> := [
    "EEE, dd MMM yyyy HH:mm:ss Z",
    "yyyy-MM-dd'T'HH:mm:ssZ",
    "yyyy-MM-dd'T'HH:mm:ss'Z'",
    "yyyy-MM-dd'T'HH:mm:ss.SSSZ",
    "yyyy-MM-dd HH:mm:ss Z",
    "yyyy-MM-dd'T'HH:mm:Z"
  ]

  /** What `parseDate` returns when no pattern parses. */
  const NO_DATE: Int64 := 0

  const MAX_DESCRIPTION: nat := 300

  // ---------------------------------------------------------------------------
  // simplifyTag

  /** The ordered rule list that maps a dialect's tag name to the field it fills. */
  function SimplifyTag(tag: string): string {
    if Contains(tag, "id") then "id"
    else if Contains(tag, "creator") then "author"
    else if Contains(tag, "date") then "pubDate"
    else if Contains(tag, "content") && !Contains(tag, "media") then "content"
    else tag
  }

  /** Every canonical name maps to itself, so simplifying twice changes nothing. */
  lemma SimplifyTagIdempotent(tag: string)
    ensures SimplifyTag(SimplifyTag(tag)) == SimplifyTag(tag)
  {
    assert OccursAt("id", "id", 0);
    NotContainsByPair("author", "id");
    NotContainsByPair("author", "creator");
    NotContainsByPair("author", "date");
    NotContainsByPair("author", "content");
    NotContainsByPair("pubDate", "id");
    NotContainsByPair("pubDate", "creator");
    NotContainsByPair("pubDate", "date");
    NotContainsByPair("pubDate", "content");
    NotContainsByPair("content", "id");
    NotContainsByPair("content", "creator");
    NotContainsByPair("content", "date");
    NotContainsByPair("content", "media");
    assert OccursAt("content", "content", 0);
  }

  /** RSS 2.0's `guid` is an id, Dublin Core's `dc:creator` an author. */
  lemma SimplifyTagIdAuthor()
    ensures SimplifyTag("guid") == "id"
    ensures SimplifyTag("dc:creator") == "author"
  {
    assert OccursAt("guid", "id", 2);
    NotContainsByPair("dc:creator", "id");
    assert OccursAt("dc:creator", "creator", 3);
  }

  /**
   * Dublin Core's `dc:date` and Atom's `updated` are dates; RSS 2.0's `pubDate`
   * passes through unchanged, the match being case-sensitive.
   */
  lemma SimplifyTagDates()
    ensures SimplifyTag("dc:date") == "pubDate"
    ensures SimplifyTag("updated") == "pubDate"
    ensures SimplifyTag("pubDate") == "pubDate"
  {
    NotContainsByPair("dc:date", "id");
    NotContainsByPair("dc:date", "creator");
    assert OccursAt("dc:date", "date", 3);
    NotContainsByPair("updated", "id");
    NotContainsByPair("updated", "creator");
    assert OccursAt("updated", "date", 2);
    NotContainsByPair("pubDate", "id");
    NotContainsByPair("pubDate", "creator");
    NotContainsByPair("pubDate", "date");
    NotContainsByPair("pubDate", "content");
  }

  /** The content module's `content:encoded` is content; Media RSS's `media:content` is not. */
  lemma SimplifyTagContent()
    ensures SimplifyTag("content:encoded") == "content"
    ensures SimplifyTag("media:content") == "media:content"
  {
    NotContainsByPair("content:encoded", "id");
    NotContainsByPair("content:encoded", "creator");
    NotContainsByPair("content:encoded", "date");
    assert OccursAt("content:encoded", "content", 0);
    NotContainsByPair("content:encoded", "media");
    NotContainsByPair("media:content", "id");
    NotContainsByPair("media:content", "creator");
    NotContainsByPair("media:content", "date");
    assert OccursAt("media:content", "content", 6);
    assert OccursAt("media:content", "media", 0);
  }

  // ---------------------------------------------------------------------------
  // The read helpers; each starts on the child's start tag

  /** `readTitle()`: the element text with its HTML stripped. */
  function ReadTitle(f: Foreign, evs: seq<Event>, p: nat): (r: Result<(string, nat)>)
    requires p < |evs|
    ensures r.Ok? ==> Within(evs, p, r.value.1)
    ensures r.Ok? ==> ReadText(evs, p).Ok? && r.value.0 == f.htmlText(ReadText(evs, p).value.0)
  {
    var t :- ReadText(evs, p);
    Ok((f.htmlText(t.0), t.1))
  }

  /**
   * After `readText()` on a start tag, the cursor is deeper than that start tag
   * exactly when it stopped on the start tag of a child.
   */
  lemma ReadTextDeeper(evs: seq<Event>, p: nat)
    requires p < |evs| && evs[p].StartTag? && ReadText(evs, p).Ok?
    ensures var q := ReadText(evs, p).value.1;
      Depth(evs, q) > Depth(evs, p) <==> evs[q].StartTag?
  {
    var q := ReadText(evs, p).value.1;
    assert Open(evs, p + 1) == Open(evs, p) + Delta(evs[p + 1]);
    if q == p + 2 {
      assert Open(evs, q) == Open(evs, p + 1) + Delta(evs[q]);
    } else if q == p + 3 {
      assert Open(evs, p + 2) == Open(evs, p + 1) + Delta(evs[p + 2]);
      assert Open(evs, q) == Open(evs, p + 2) + Delta(evs[q]);
    }
  }

  /**
   * `readAuthor()`: the element text; when that leaves the cursor inside the element
   * on a `name` start tag (the Atom Person construct), the text of `name` instead.
   * On anything else inside the element the source's loop never advances: `Diverges`.
   * The contract states it by where `readText()` stopped: on no start tag, the
   * author's own text; on `<name>`, the text of `name`; on any other child's start
   * tag, the loop that never ends.
   */
  function ReadAuthor(evs: seq<Event>, p: nat): (r: Result<(string, nat)>)
    requires p < |evs| && evs[p].StartTag?
    ensures r.Ok? ==> Within(evs, p, r.value.1)
    ensures ReadText(evs, p).Err? ==> r == ReadText(evs, p)
    ensures r == Err(Diverges) <==>
      ReadText(evs, p).Ok? && var q := ReadText(evs, p).value.1;
      evs[q].StartTag? && evs[q].name != "name"
    ensures ReadText(evs, p).Ok? && !evs[ReadText(evs, p).value.1].StartTag? ==>
      r == ReadText(evs, p)
    ensures ReadText(evs, p).Ok? ==> var q := ReadText(evs, p).value.1;
      evs[q].StartTag? && evs[q].name == "name" ==> r == ReadText(evs, q)
  {
    var t :- ReadText(evs, p);
    ReadTextDeeper(evs, p);
    var q := t.1;
    if Depth(evs, q) > Depth(evs, p) then
      if evs[q].StartTag? && evs[q].name == "name" then
        var n :- ReadText(evs, q);
        WithinTrans(evs, p, q, n.1);
        Ok(n)
      else Err(Diverges)
    else Ok(t)
  }

  /** `readDescription()`: must start on `description` and end on `</description>`. */
  function ReadDescription(evs: seq<Event>, p: nat): (r: Result<(string, nat)>)
    requires p < |evs|
    ensures r.Ok? ==> Within(evs, p, r.value.1)
    ensures r.Ok? ==> evs[p].StartTag? && evs[p].name == "description"
                      && evs[r.value.1].EndTag? && evs[r.value.1].name == "description"
  {
    if !(evs[p].StartTag? && evs[p].name == "description") then Err(XmlError)
    else
      var t :- ReadText(evs, p);
      if evs[t.1].EndTag? && evs[t.1].name == "description" then Ok(t) else Err(XmlError)
  }

  /**
   * `readContent(oldContent)`: blank text never replaces content already read;
   * otherwise (non-blank text, or nothing read before) the text itself, blank or not.
   */
  function ReadContent(evs: seq<Event>, p: nat, previous: Option<string>): (r: Result<(string, nat)>)
    requires p < |evs|
    ensures r.Ok? <==> ReadText(evs, p).Ok?
    ensures r.Ok? ==> Within(evs, p, r.value.1) && r.value.1 == ReadText(evs, p).value.1
    ensures r.Ok? && IsBlank(ReadText(evs, p).value.0) && previous.Some? ==> r.value.0 == previous.value
    ensures r.Ok? && (!IsBlank(ReadText(evs, p).value.0) || previous.None?) ==>
              r.value.0 == ReadText(evs, p).value.0
  {
    var t :- ReadText(evs, p);
    if IsBlank(t.0) && previous.Some? then Ok((previous.value, t.1)) else Ok(t)
  }

  /** `readId()`: the Java hash code of the element text. */
  function ReadId(evs: seq<Event>, p: nat): (r: Result<(Int32, nat)>)
    requires p < |evs|
    ensures r.Ok? ==> Within(evs, p, r.value.1)
    ensures r.Ok? ==> ReadText(evs, p).Ok? && r.value.0 == HashCode(ReadText(evs, p).value.0)
  {
    var t :- ReadText(evs, p);
    Ok((HashCode(t.0), t.1))
  }

  /** `readTimestamp()`: the element text through `parseDate`. */
  function ReadTimestamp(f: Foreign, evs: seq<Event>, p: nat): (r: Result<(Int64, nat)>)
    requires p < |evs|
    ensures r.Ok? ==> Within(evs, p, r.value.1)
  {
    var t :- ReadText(evs, p);
    Ok((FirstParse(f, DATE_FORMATS, t.0, NO_DATE), t.1))
  }

  // ---------------------------------------------------------------------------
  // readEntry

  /** One child of an entry, dispatched on its simplified tag name. */
  function Handle(f: Foreign, evs: seq<Event>, c: nat, fs: EntryFields): (r: Result<(EntryFields, nat)>)
    requires c < |evs| && evs[c].StartTag?
    ensures r.Ok? ==> Within(evs, c, r.value.1)
  {
    var tag := SimplifyTag(evs[c].name);
    if tag == "id" then
      var v :- ReadId(evs, c);
      Ok((fs.(postId := Some(v.0)), v.1))
    else if tag == "title" then
      var v :- ReadTitle(f, evs, c);
      Ok((fs.(title := Some(v.0)), v.1))
    else if tag == "author" then
      var v :- ReadAuthor(evs, c);
      Ok((fs.(author := Some(v.0)), v.1))
    else if tag == "link" then
      var v :- ReadLink(evs, c);
      Ok((fs.(link := Some(v.0)), v.1))
    else if tag == "pubDate" then
      var v :- ReadTimestamp(f, evs, c);
      Ok((fs.(timestamp := v.0), v.1))
    else if tag == "description" then
      var v :- ReadDescription(evs, c);
      Ok((fs.(description := Some(v.0)), v.1))
    else if tag == "content" then
      var v :- ReadContent(evs, c, fs.content);
      Ok((fs.(content := Some(v.0)), v.1))
    else
      SkipEndCloses(evs, c);
      var m :- SkipEnd(evs, c);
      Ok((fs, m))
  }

  /** The fields hold content that is not blank. */
  predicate HasContent(fs: EntryFields) {
    fs.content.Some? && !IsBlank(fs.content.value)
  }

  /**
   * A content child changes only the content: blank text keeps the content read
   * before, and any other text (or a first content, blank or not) becomes the content.
   */
  lemma ContentGuard(f: Foreign, evs: seq<Event>, c: nat, fs: EntryFields)
    requires c < |evs| && evs[c].StartTag? && SimplifyTag(evs[c].name) == "content"
    ensures Handle(f, evs, c, fs).Ok? <==> ReadText(evs, c).Ok?
    ensures Handle(f, evs, c, fs).Ok? ==>
      var text := ReadText(evs, c).value.0;
      var g := Handle(f, evs, c, fs).value.0;
      && g == fs.(content := g.content)
      && (IsBlank(text) && fs.content.Some? ==> g == fs)
      && (!IsBlank(text) || fs.content.None? ==> g.content == Some(text))
  {
  }

  /** No child, of whatever kind, turns content that is not blank into blank content. */
  lemma HandleKeepsContent(f: Foreign, evs: seq<Event>, c: nat, fs: EntryFields)
    requires c < |evs| && evs[c].StartTag? && HasContent(fs)
    ensures Handle(f, evs, c, fs).Ok? ==> HasContent(Handle(f, evs, c, fs).value.0)
  {
    if SimplifyTag(evs[c].name) == "content" {
      ContentGuard(f, evs, c, fs);
    }
  }

  /**
   * The loop of `readEntry` from cursor `p`, for the entry that starts at `a`: it
   * ends on an end tag no deeper than the entry's start tag.
   */
  function EntryLoop(f: Foreign, evs: seq<Event>, a: nat, p: nat, fs: EntryFields): (r: Result<(EntryFields, nat)>)
    requires a < |evs| && p < |evs|
    ensures r.Ok? ==> p < r.value.1 < |evs|
    decreases |evs| - p
  {
    var q :- Next(evs, p);
    if evs[q].EndTag? && Depth(evs, q) <= Depth(evs, a) then Ok((fs, q))
    else if !evs[q].StartTag? then EntryLoop(f, evs, a, q, fs)
    else
      var h :- Handle(f, evs, q, fs);
      EntryLoop(f, evs, a, h.1, h.0)
  }

  /**
   * Once content that is not blank has been read, the rest of the entry keeps
   * content that is not blank: a later blank content element never erases it.
   */
  lemma {:induction false} EntryLoopKeepsContent(f: Foreign, evs: seq<Event>, a: nat, p: nat, fs: EntryFields)
    requires a < |evs| && p < |evs| && HasContent(fs)
    ensures EntryLoop(f, evs, a, p, fs).Ok? ==> HasContent(EntryLoop(f, evs, a, p, fs).value.0)
    decreases |evs| - p
  {
    if Next(evs, p).Ok? {
      var q := p + 1;
      if evs[q].EndTag? && Depth(evs, q) <= Depth(evs, a) {
      } else if !evs[q].StartTag? {
        EntryLoopKeepsContent(f, evs, a, q, fs);
      } else {
        HandleKeepsContent(f, evs, q, fs);
        var h := Handle(f, evs, q, fs);
        if h.Ok? {
          EntryLoopKeepsContent(f, evs, a, h.value.1, h.value.0);
        }
      }
    }
  }

  /** `title + timestamp.toString()` with a null title printed as "null". */
  function IdSource(fs: EntryFields): string {
    (if fs.title.Some? then fs.title.value else "null") + LongToString(fs.timestamp)
  }

  /** The defaulting pass at the end of `readEntry`. */
  function Assemble(f: Foreign, feedId: Int32, fs: EntryFields): ParsedPost {
    var postId := if fs.postId.Some? then fs.postId.value else HashCode(IdSource(fs));
    var content := if fs.content.None? && fs.description.Some? then fs.description else fs.content;
    var description :=
      if content.Some? || fs.description.Some? then
        var cs := f.htmlText(if fs.description.Some? then fs.description.value else content.value);
        Some(UnitPrefix(cs, MAX_DESCRIPTION))
      else fs.description;
    ParsedPost(feedId, postId, fs.title.GetOr("(no title)"), fs.author.GetOr("(no author)"),
               fs.link.GetOr(""), fs.timestamp, description.GetOr(""), content.GetOr(""), false)
  }

  /** The text the shortened description is cut from: the description, else the content. */
  function SummarySource(fs: EntryFields): Option<string> {
    if fs.description.Some? then fs.description else fs.content
  }

  /**
   * What `readEntry` promises of the post it builds: the fields it read are kept, a
   * missing one gets its placeholder, the content falls back to the description, and
   * the description is the longest prefix of the HTML-stripped description or
   * content that fits in 300 UTF-16 units, or empty when there was neither.
   */
  lemma AssembleFields(f: Foreign, feedId: Int32, fs: EntryFields)
    ensures var post := Assemble(f, feedId, fs);
      && post.feedId == feedId && post.timestamp == fs.timestamp && !post.read
      && post.title == (if fs.title.Some? then fs.title.value else "(no title)")
      && post.author == (if fs.author.Some? then fs.author.value else "(no author)")
      && post.link == (if fs.link.Some? then fs.link.value else "")
      && post.content == (if fs.content.Some? then fs.content.value
                          else if fs.description.Some? then fs.description.value else "")
      && (SummarySource(fs).None? ==> post.description == "")
      && (SummarySource(fs).Some? ==>
            var text := f.htmlText(SummarySource(fs).value);
            && post.description <= text && |Utf16(post.description)| <= MAX_DESCRIPTION
            && (post.description == text
                || |Utf16(post.description)| + |Units(text[|post.description|])| > MAX_DESCRIPTION))
  {
  }

  /**
   * The post's description never exceeds 300 UTF-16 units, and it falls short of
   * `min(300, length)` units by at most the one unit of a straddling surrogate pair.
   * On text of the Basic Multilingual Plane it is exactly the first
   * `min(300, length)` characters.
   */
  lemma AssembleDescriptionBound(f: Foreign, feedId: Int32, fs: EntryFields)
    ensures |Utf16(Assemble(f, feedId, fs).description)| <= MAX_DESCRIPTION
    ensures SummarySource(fs).Some? ==>
      var text := f.htmlText(SummarySource(fs).value);
      var d := Assemble(f, feedId, fs).description;
      && Utf16(d) <= Utf16(text)
      && |Utf16(d)| >= Min(MAX_DESCRIPTION, |Utf16(text)|) - 1
      && (InBmp(text) ==> d == text[..Min(MAX_DESCRIPTION, |text|)])
  {
    if SummarySource(fs).Some? {
      var text := f.htmlText(SummarySource(fs).value);
      UnitPrefixUnits(text, MAX_DESCRIPTION);
      if InBmp(text) {
        UnitPrefixBmp(text, MAX_DESCRIPTION);
      }
    }
  }

  /**
   * An entry without an id gets the hash of its title and timestamp; two such
   * entries with the same title hash different strings when their dates differ.
   */
  lemma SyntheticId(f: Foreign, feedId: Int32, fs: EntryFields, gs: EntryFields)
    requires fs.postId.None? && gs.postId.None? && fs.title == gs.title
    ensures Assemble(f, feedId, fs).postId == HashCode(IdSource(fs))
    ensures fs.timestamp != gs.timestamp ==> IdSource(fs) != IdSource(gs)
  {
    if fs.timestamp != gs.timestamp && IdSource(fs) == IdSource(gs) {
      var t := if fs.title.Some? then fs.title.value else "null";
      assert IdSource(fs)[|t|..] == LongToString(fs.timestamp);
      assert IdSource(gs)[|t|..] == LongToString(gs.timestamp);
      LongToStringInjective(fs.timestamp, gs.timestamp);
    }
  }

  /** An id read from the entry is used as it is. */
  lemma ReadIdKept(f: Foreign, feedId: Int32, fs: EntryFields)
    requires fs.postId.Some?
    ensures Assemble(f, feedId, fs).postId == fs.postId.value
  {
  }

  /** `readEntry()` on the entry whose start tag is at `a`: the post and the final cursor. */
  function EntryEnd(f: Foreign, feedId: Int32, evs: seq<Event>, a: nat): (r: Result<(ParsedPost, nat)>)
    requires a < |evs|
    ensures r.Ok? ==> a < r.value.1 < |evs|
  {
    var r :- EntryLoop(f, evs, a, a, NO_FIELDS);
    Ok((Assemble(f, feedId, r.0), r.1))
  }

  /** After a child read from the start tag at `p + 1`, the cursor is still inside `a`. */
  lemma ChildStaysInside(evs: seq<Event>, a: nat, p: nat, m: nat)
    requires a <= p && p + 1 < |evs| && !evs[p].EndDoc? && evs[p + 1].StartTag?
    requires forall i | a <= i <= p :: Open(evs, i) >= Open(evs, a)
    requires Live(evs, a, p)
    requires Within(evs, p + 1, m)
    ensures forall i | a <= i <= m :: Open(evs, i) >= Open(evs, a)
    ensures Live(evs, a, m)
  {
    assert Open(evs, p + 1) == Open(evs, p) + 1;
  }

  lemma {:induction false} EntryLoopCloses(f: Foreign, evs: seq<Event>, a: nat, p: nat, fs: EntryFields)
    requires a <= p < |evs| && evs[a].StartTag?
    requires forall i | a <= i <= p :: Open(evs, i) >= Open(evs, a)
    requires Live(evs, a, p)
    ensures EntryLoop(f, evs, a, p, fs).Ok? ==> Closes(evs, a, EntryLoop(f, evs, a, p, fs).value.1)
    decreases |evs| - p, 1
  {
    if Next(evs, p).Ok? {
      var q := p + 1;
      assert Open(evs, q) == Open(evs, p) + Delta(evs[q]);
      if evs[q].EndTag? && Depth(evs, q) <= Depth(evs, a) {
        assert Open(evs, q) == Open(evs, a) - 1;
      } else if !evs[q].StartTag? {
        assert Open(evs, q) >= Open(evs, a);
        EntryLoopCloses(f, evs, a, q, fs);
      } else {
        ChildThenLoop(f, evs, a, p, fs);
      }
    }
  }

  /** The case of `EntryLoopCloses` where the loop meets a child's start tag. */
  lemma {:induction false} ChildThenLoop(f: Foreign, evs: seq<Event>, a: nat, p: nat, fs: EntryFields)
    requires a <= p && p + 1 < |evs| && evs[a].StartTag? && !evs[p].EndDoc? && evs[p + 1].StartTag?
    requires forall i | a <= i <= p :: Open(evs, i) >= Open(evs, a)
    requires Live(evs, a, p)
    ensures EntryLoop(f, evs, a, p, fs).Ok? ==> Closes(evs, a, EntryLoop(f, evs, a, p, fs).value.1)
    decreases |evs| - p, 0
  {
    var h := Handle(f, evs, p + 1, fs);
    if h.Ok? {
      ChildStaysInside(evs, a, p, h.value.1);
      EntryLoopCloses(f, evs, a, h.value.1, h.value.0);
    }
  }

  /**
   * `readEntry()` ends on the end tag that closes the entry: no end tag of a child
   * ends it, however the children are nested.
   */
  lemma EntryEndCloses(f: Foreign, feedId: Int32, evs: seq<Event>, a: nat)
    requires a < |evs| && evs[a].StartTag?
    ensures EntryEnd(f, feedId, evs, a).Ok? ==> Closes(evs, a, EntryEnd(f, feedId, evs, a).value.1)
  {
    EntryLoopCloses(f, evs, a, a, NO_FIELDS);
  }

  /** The `when (simplifyTag(parser.name))` dispatch in `readEntry`. */
  method HandleChild(f: Foreign, evs: seq<Event>, c: nat, fs: EntryFields) returns (r: Result<(EntryFields, nat)>)
    requires c < |evs| && evs[c].StartTag?
    ensures r == Handle(f, evs, c, fs)
  {
    var tag := SimplifyTag(evs[c].name);
    if tag == "id" {
      var v := ReadId(evs, c);
      if v.Err? { return Err(v.error); }
      return Ok((fs.(postId := Some(v.value.0)), v.value.1));
    } else if tag == "title" {
      var v := ReadTitle(f, evs, c);
      if v.Err? { return Err(v.error); }
      return Ok((fs.(title := Some(v.value.0)), v.value.1));
    } else if tag == "author" {
      var v := ReadAuthor(evs, c);
      if v.Err? { return Err(v.error); }
      return Ok((fs.(author := Some(v.value.0)), v.value.1));
    } else if tag == "link" {
      var v := ReadLink(evs, c);
      if v.Err? { return Err(v.error); }
      return Ok((fs.(link := Some(v.value.0)), v.value.1));
    } else if tag == "pubDate" {
      var t := ReadText(evs, c);
      if t.Err? { return Err(t.error); }
      var ts := ParseDate(f, DATE_FORMATS, t.value.0, NO_DATE);
      return Ok((fs.(timestamp := ts), t.value.1));
    } else if tag == "description" {
      var v := ReadDescription(evs, c);
      if v.Err? { return Err(v.error); }
      return Ok((fs.(description := Some(v.value.0)), v.value.1));
    } else if tag == "content" {
      var v := ReadContent(evs, c, fs.content);
      if v.Err? { return Err(v.error); }
      return Ok((fs.(content := Some(v.value.0)), v.value.1));
    } else {
      var m := Skip(evs, c);
      if m.Err? { return Err(m.error); }
      return Ok((fs, m.value));
    }
  }

  /**
   * `readEntry()`: reads children until the end tag that closes the entry at `a`,
   * then builds the post.
   */
  method ReadEntry(f: Foreign, feedId: Int32, evs: seq<Event>, a: nat) returns (r: Result<(ParsedPost, nat)>)
    requires a < |evs| && evs[a].StartTag?
    ensures r == EntryEnd(f, feedId, evs, a)
    ensures r.Ok? ==> Closes(evs, a, r.value.1)
  {
    EntryEndCloses(f, feedId, evs, a);
    var fs := NO_FIELDS;
    var startDepth := Depth(evs, a);
    var p := a;
    var n := Next(evs, p);
    while n.Ok? && !(evs[n.value].EndTag? && Depth(evs, n.value) <= startDepth)
      invariant p < |evs| && n == Next(evs, p)
      invariant EntryLoop(f, evs, a, p, fs) == EntryLoop(f, evs, a, a, NO_FIELDS)
      decreases |evs| - p
    {
      var q := n.value;
      if evs[q].StartTag? {
        var h := HandleChild(f, evs, q, fs);
        if h.Err? { return Err(h.error); }
        fs, p := h.value.0, h.value.1;
      } else {
        p := q;
      }
      n := Next(evs, p);
    }
    if n.Err? { return Err(n.error); }
    return Ok((Assemble(f, feedId, fs), n.value));
  }

  // ---------------------------------------------------------------------------
  // readFeed and parse

  /**
   * The loop of `readFeed` from cursor `p`, to END_DOCUMENT. It steps into `channel`
   * with one extra `next()`, reads `item` and `entry` as posts, skips every other
   * start tag as a whole subtree and passes over every other event.
   */
  function FeedLoop(f: Foreign, feedId: Int32, evs: seq<Event>, p: nat): Result<seq<ParsedPost>>
    requires p < |evs|
    decreases |evs| - p
  {
    var q :- Next(evs, p);
    if evs[q].EndDoc? then Ok([])
    else if !evs[q].StartTag? then FeedLoop(f, feedId, evs, q)
    else if evs[q].name == "channel" then
      var q2 :- Next(evs, q);
      FeedLoop(f, feedId, evs, q2)
    else if evs[q].name == "item" || evs[q].name == "entry" then
      var e :- EntryEnd(f, feedId, evs, q);
      Prepend([e.0], FeedLoop(f, feedId, evs, e.1))
    else
      var e :- SkipEnd(evs, q);
      FeedLoop(f, feedId, evs, e)
  }

  /** `readFeed()` from cursor `p0`. */
  method ReadFeed(f: Foreign, feedId: Int32, evs: seq<Event>, p0: nat) returns (r: Result<seq<ParsedPost>>)
    requires p0 < |evs|
    ensures r == FeedLoop(f, feedId, evs, p0)
  {
    var entries: seq<ParsedPost> := [];
    var p := p0;
    var n := Next(evs, p);
    PrependEmpty(FeedLoop(f, feedId, evs, p0));
    while n.Ok? && !evs[n.value].EndDoc?
      invariant p < |evs| && n == Next(evs, p)
      invariant FeedLoop(f, feedId, evs, p0) == Prepend(entries, FeedLoop(f, feedId, evs, p))
      decreases |evs| - p
    {
      var q := n.value;
      if !evs[q].StartTag? {
        p := q;
      } else if evs[q].name == "channel" {
        var n2 := Next(evs, q);
        if n2.Err? { return Err(n2.error); }
        p := n2.value;
      } else if evs[q].name == "item" || evs[q].name == "entry" {
        var e := ReadEntry(f, feedId, evs, q);
        if e.Err? { return Err(e.error); }
        PrependPrepend(entries, [e.value.0], FeedLoop(f, feedId, evs, e.value.1));
        entries, p := entries + [e.value.0], e.value.1;
      } else {
        var e := Skip(evs, q);
        if e.Err? { return Err(e.error); }
        p := e.value;
      }
      n := Next(evs, p);
    }
    if n.Err? { return Err(n.error); }
    assert entries + [] == entries;
    return Ok(entries);
  }

  /** `parse()`: `nextTag()` to the root element, then `readFeed()`. */
  function ParseFeed(f: Foreign, feedId: Int32, evs: seq<Event>): Result<seq<ParsedPost>> {
    if evs == [] then Err(XmlError)
    else
      var root :- TagFrom(evs, 0);
      FeedLoop(f, feedId, evs, root)
  }

  method Parse(f: Foreign, feedId: Int32, evs: seq<Event>) returns (r: Result<seq<ParsedPost>>)
    ensures r == ParseFeed(f, feedId, evs)
  {
    if evs == [] {
      return Err(XmlError);
    }
    var root := TagFrom(evs, 0);
    if root.Err? {
      return Err(root.error);
    }
    r := ReadFeed(f, feedId, evs, root.value);
  }
}
