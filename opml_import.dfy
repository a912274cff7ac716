// The OPML importers: `OPMLParser` of the current app
// (app/src/main/java/com/alex/arse/OPMLParser.kt) and the older one
// (app/src/main/java/com/example/inventory/OPMLParser.kt).  Both walk the event
// stream once with one mutable "current category": an `outline` without `xmlUrl`
// sets it, an `outline` with `xmlUrl` becomes a feed filed under it.  They differ
// in one branch only: the current importer clears the category at every end tag
// whose `xmlUrl` lookup answers null; the older one never clears it.

module OpmlImport {
  import opened JavaLang
  import opened XmlPull
  import opened StoreData
  import opened ViewModel

  /** Which of the two importers: the current one, or the older one. */
  datatype Dialect = Current | Legacy

  const UNCATEGORIZED := "Uncategorized"

  /** What `readOutline` returns (a feed, none, or an exception) and the category it leaves. */
  datatype Outline = Outline(feed: Result<Option<Feed>>, category: Option<string>)

  predicate IsOutline(e: Event) {
    e.StartTag? && e.name == "outline"
  }

  /** An outline with `xmlUrl` and `text`: one that becomes a feed. */
  predicate IsFeedOutline(e: Event) {
    IsOutline(e) && Attr(e, "xmlUrl").Some? && Attr(e, "text").Some?
  }

  /** An outline without `xmlUrl`: a category heading. */
  predicate IsCategoryOutline(e: Event) {
    IsOutline(e) && Attr(e, "xmlUrl").None?
  }

  /**
   * `readOutline()` on an `outline` start tag, with current category `cat`.
   * Without `xmlUrl` it sets the category to the `text` attribute (null when absent)
   * and yields no feed.  Otherwise it yields the feed `getNewFeed(xmlUrl, text,
   * htmlUrl or "", category or "Uncategorized")`; a missing `text` is a null `name`,
   * which `getNewFeed` refuses with a NullPointerException.
   */
  function ReadOutline(e: Event, cat: Option<string>): (r: Outline)
    requires IsOutline(e)
    ensures Attr(e, "xmlUrl").None? ==> r == Outline(Ok(None), Attr(e, "text"))
    ensures Attr(e, "xmlUrl").Some? ==> r.category == cat
    ensures r.feed == Err(NullPointer) <==> Attr(e, "xmlUrl").Some? && Attr(e, "text").None?
    ensures r.feed.Ok? && r.feed.value.Some? <==> IsFeedOutline(e)
    ensures r.feed.Ok? && r.feed.value.Some? ==>
              var f := r.feed.value.value;
              && f.url == e.attrs["xmlUrl"] && f.name == e.attrs["text"]
              && f.htmlUrl == Attr(e, "htmlUrl").GetOr("")
              && f.category == cat.GetOr(UNCATEGORIZED)
              && f.id == 0 && f.contentHash == 0
  {
    match Attr(e, "xmlUrl")
    case None => Outline(Ok(None), Attr(e, "text"))
    case Some(url) =>
      match Attr(e, "text")
      case None => Outline(Err(NullPointer), cat)
      case Some(name) =>
        var htmlUrl := Attr(e, "htmlUrl").GetOr("");
        Outline(Ok(Some(GetNewFeed(url, name, htmlUrl, cat.GetOr(UNCATEGORIZED)))), cat)
  }

  /** The outcome of `readOPML()`: its feeds or exception, and the category field afterwards. */
  datatype Run = Run(feeds: Result<seq<Feed>>, category: Option<string>)

  function Then(xs: seq<Feed>, r: Run): Run {
    Run(Prepend(xs, r.feeds), r.category)
  }

  function AsSeq(o: Option<Feed>): seq<Feed> {
    if o.Some? then [o.value] else []
  }

  /** The category after an end tag: the current importer clears it when `xmlUrl` answers null. */
  function AtEndTag(d: Dialect, e: Event, cat: Option<string>): Option<string> {
    if d == Current && Attr(e, "xmlUrl").None? then None else cat
  }

  /**
   * The loop of `readOPML()` from cursor `p` with category `cat`, one branch per
   * event: END_DOCUMENT ends it; an end tag (after the category step above) and
   * any other non-start event go `next()`; `body` and `opml` go `nextTag()`; an
   * `outline` is read, its feed appended, then `nextTag()`; any other start tag is
   * skipped, which leaves the cursor on its end tag.
   */
  function OpmlLoop(d: Dialect, evs: seq<Event>, p: nat, cat: Option<string>): Run
    requires p < |evs|
    decreases |evs| - p
  {
    var e := evs[p];
    if e.EndDoc? then Run(Ok([]), cat)
    else if !e.StartTag? then
      var cat' := if e.EndTag? then AtEndTag(d, e, cat) else cat;
      match Next(evs, p)
      case Err(x) => Run(Err(x), cat')
      case Ok(q) => OpmlLoop(d, evs, q, cat')
    else if e.name == "body" || e.name == "opml" then
      match NextTag(evs, p)
      case Err(x) => Run(Err(x), cat)
      case Ok(q) => OpmlLoop(d, evs, q, cat)
    else if e.name == "outline" then
      var o := ReadOutline(e, cat);
      if o.feed.Err? then Run(Err(o.feed.error), o.category)
      else
        match NextTag(evs, p)
        case Err(x) => Run(Err(x), o.category)
        case Ok(q) => Then(AsSeq(o.feed.value), OpmlLoop(d, evs, q, o.category))
    else
      match SkipEnd(evs, p)
      case Err(x) => Run(Err(x), cat)
      case Ok(q) => OpmlLoop(d, evs, q, cat)
  }

  /** `parse()`: `nextTag()` to the root element, then `readOPML()`. */
  function ParseOpml(d: Dialect, evs: seq<Event>, cat: Option<string>): Run {
    if evs == [] then Run(Err(XmlError), cat)
    else
      match TagFrom(evs, 0)
      case Err(x) => Run(Err(x), cat)
      case Ok(q) => OpmlLoop(d, evs, q, cat)
  }

  // ---------------------------------------------------------------------------
  // Where the imported feeds come from

  /**
   * `x` is the feed of a feed outline at or after `p`, filed under "Uncategorized",
   * under the category current at `p`, or under the `text` of a category outline at
   * or after `p`.
   */
  ghost predicate FromOutline(x: Feed, evs: seq<Event>, p: nat, cat: Option<string>) {
    && (exists i | p <= i < |evs| :: IsFeedOutline(evs[i])
          && x.url == evs[i].attrs["xmlUrl"] && x.name == evs[i].attrs["text"]
          && x.htmlUrl == Attr(evs[i], "htmlUrl").GetOr(""))
    && x.id == 0 && x.contentHash == 0
    && (|| x.category == UNCATEGORIZED
        || cat == Some(x.category)
        || exists i | p <= i < |evs| :: IsCategoryOutline(evs[i]) && Attr(evs[i], "text") == Some(x.category))
  }

  lemma FromOutlineLater(x: Feed, evs: seq<Event>, p: nat, q: nat, cat: Option<string>, cat': Option<string>)
    requires p <= q && FromOutline(x, evs, q, cat')
    requires cat' == None || cat' == cat
          || (p < |evs| && IsCategoryOutline(evs[p]) && cat' == Attr(evs[p], "text"))
    ensures FromOutline(x, evs, p, cat)
  {
  }

  /**
   * Every imported feed is the feed of some feed outline of the document: its url,
   * name and htmlUrl are that outline's, and its category is "Uncategorized", the
   * category the loop started with, or the `text` of some category outline.
   */
  lemma {:induction false} LoopFeedsFromOutlines(d: Dialect, evs: seq<Event>, p: nat, cat: Option<string>)
    requires p < |evs|
    ensures OpmlLoop(d, evs, p, cat).feeds.Ok? ==>
              forall x | x in OpmlLoop(d, evs, p, cat).feeds.value :: FromOutline(x, evs, p, cat)
    decreases |evs| - p
  {
    var e := evs[p];
    if e.EndDoc? {
    } else if !e.StartTag? {
      var cat' := if e.EndTag? then AtEndTag(d, e, cat) else cat;
      if Next(evs, p).Ok? {
        var q := p + 1;
        LoopFeedsFromOutlines(d, evs, q, cat');
        forall x | OpmlLoop(d, evs, q, cat').feeds.Ok? && x in OpmlLoop(d, evs, q, cat').feeds.value
          ensures FromOutline(x, evs, p, cat)
        {
          FromOutlineLater(x, evs, p, q, cat, cat');
        }
      }
    } else if e.name == "body" || e.name == "opml" {
      if NextTag(evs, p).Ok? {
        var q := NextTag(evs, p).value;
        LoopFeedsFromOutlines(d, evs, q, cat);
        forall x | OpmlLoop(d, evs, q, cat).feeds.Ok? && x in OpmlLoop(d, evs, q, cat).feeds.value
          ensures FromOutline(x, evs, p, cat)
        {
          FromOutlineLater(x, evs, p, q, cat, cat);
        }
      }
    } else if e.name == "outline" {
      var o := ReadOutline(e, cat);
      if o.feed.Ok? && NextTag(evs, p).Ok? {
        var q := NextTag(evs, p).value;
        LoopFeedsFromOutlines(d, evs, q, o.category);
        var rest := OpmlLoop(d, evs, q, o.category);
        forall x | rest.feeds.Ok? && x in rest.feeds.value
          ensures FromOutline(x, evs, p, cat)
        {
          FromOutlineLater(x, evs, p, q, cat, o.category);
        }
        if o.feed.value.Some? {
          assert FromOutline(o.feed.value.value, evs, p, cat);
        }
      }
    } else {
      if SkipEnd(evs, p).Ok? {
        var q := SkipEnd(evs, p).value;
        LoopFeedsFromOutlines(d, evs, q, cat);
        forall x | OpmlLoop(d, evs, q, cat).feeds.Ok? && x in OpmlLoop(d, evs, q, cat).feeds.value
          ensures FromOutline(x, evs, p, cat)
        {
          FromOutlineLater(x, evs, p, q, cat, cat);
        }
      }
    }
  }

  /** A fresh importer starts with no category, so every feed is filed as above with `cat` null. */
  lemma ParseFeedsFromOutlines(d: Dialect, evs: seq<Event>)
    ensures ParseOpml(d, evs, None).feeds.Ok? ==>
              forall x | x in ParseOpml(d, evs, None).feeds.value :: FromOutline(x, evs, 0, None)
  {
    if evs != [] && TagFrom(evs, 0).Ok? {
      var q := TagFrom(evs, 0).value;
      LoopFeedsFromOutlines(d, evs, q, None);
      forall x | OpmlLoop(d, evs, q, None).feeds.Ok? && x in OpmlLoop(d, evs, q, None).feeds.value
        ensures FromOutline(x, evs, 0, None)
      {
        FromOutlineLater(x, evs, 0, q, None, None);
      }
    }
  }

  // ---------------------------------------------------------------------------
  // The importer object

  class OpmlParser {
    const dialect: Dialect
    /** The `category` field: the text of the last category outline, null when cleared. */
    var category: Option<string>

    constructor(d: Dialect)
      ensures dialect == d && category == None
    {
      dialect := d;
      category := None;
    }

    /** `readOutline()`: updates the category field and returns the feed, if any. */
    method ReadOutlineAt(e: Event) returns (r: Result<Option<Feed>>)
      requires IsOutline(e)
      modifies this
      ensures Outline(r, category) == ReadOutline(e, old(category))
    {
      var url := Attr(e, "xmlUrl");
      if url.None? {
        category := Attr(e, "text");
        return Ok(None);
      }
      var name := Attr(e, "text");
      var htmlUrl := Attr(e, "htmlUrl");
      if htmlUrl.None? {
        htmlUrl := Some("");
      }
      if name.None? {
        return Err(NullPointer);
      }
      if category.Some? {
        return Ok(Some(GetNewFeed(url.value, name.value, htmlUrl.value, category.value)));
      }
      return Ok(Some(GetNewFeed(url.value, name.value, htmlUrl.value, UNCATEGORIZED)));
    }

    /** `readOPML()` from cursor `p0`. */
    method ReadOpml(evs: seq<Event>, p0: nat) returns (r: Result<seq<Feed>>)
      requires p0 < |evs|
      modifies this
      ensures Run(r, category) == OpmlLoop(dialect, evs, p0, old(category))
    {
      var feeds: seq<Feed> := [];
      var p := p0;
      PrependEmpty(OpmlLoop(dialect, evs, p0, category).feeds);
      while !evs[p].EndDoc?
        invariant p < |evs|
        invariant OpmlLoop(dialect, evs, p0, old(category)) == Then(feeds, OpmlLoop(dialect, evs, p, category))
        decreases |evs| - p
      {
        var e := evs[p];
        if e.EndTag? && dialect == Current {
          if Attr(e, "xmlUrl").None? {
            category := None;
          }
          var n := Next(evs, p);
          if n.Err? { PrependFailure(feeds, n.error, category); return Err(n.error); }
          p := n.value;
        } else if !e.StartTag? {
          var n := Next(evs, p);
          if n.Err? { PrependFailure(feeds, n.error, category); return Err(n.error); }
          p := n.value;
        } else if e.name == "body" || e.name == "opml" {
          var n := NextTag(evs, p);
          if n.Err? { PrependFailure(feeds, n.error, category); return Err(n.error); }
          p := n.value;
        } else if e.name == "outline" {
          ghost var cat := category;
          var maybeFeed := ReadOutlineAt(e);
          if maybeFeed.Err? {
            PrependFailure(feeds, maybeFeed.error, category);
            return Err(maybeFeed.error);
          }
          var n := NextTag(evs, p);
          if n.Err? { PrependFailure(feeds, n.error, category); return Err(n.error); }
          ThenThen(feeds, AsSeq(maybeFeed.value), OpmlLoop(dialect, evs, n.value, category));
          feeds := feeds + AsSeq(maybeFeed.value);
          p := n.value;
        } else {
          var n := Skip(evs, p);
          if n.Err? { PrependFailure(feeds, n.error, category); return Err(n.error); }
          p := n.value;
        }
      }
      assert feeds + [] == feeds;
      return Ok(feeds);
    }

    /** `parse()`: `nextTag()` to the root element, then `readOPML()`. */
    method Parse(evs: seq<Event>) returns (r: Result<seq<Feed>>)
      modifies this
      ensures Run(r, category) == ParseOpml(dialect, evs, old(category))
    {
      if evs == [] {
        return Err(XmlError);
      }
      var root := TagFrom(evs, 0);
      if root.Err? {
        return Err(root.error);
      }
      r := ReadOpml(evs, root.value);
    }
  }

  lemma PrependFailure(xs: seq<Feed>, x: ParseError, cat: Option<string>)
    ensures Then(xs, Run(Err(x), cat)) == Run(Err(x), cat)
  {
  }

  lemma ThenThen(xs: seq<Feed>, ys: seq<Feed>, r: Run)
    ensures Then(xs, Then(ys, r)) == Then(xs + ys, r)
  {
    PrependPrepend(xs, ys, r.feeds);
  }

  /** A fresh importer of either kind, run on one document. */
  method ImportOpml(d: Dialect, evs: seq<Event>) returns (r: Result<seq<Feed>>)
    ensures r == ParseOpml(d, evs, None).feeds
  {
    var parser := new OpmlParser(d);
    r := parser.Parse(evs);
  }
}
