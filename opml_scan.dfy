// What the OPML importers return, stated for any document by an independent
// reference: a left-to-right scan of the events that the importers can see, i.e. those
// whose enclosing elements are all `opml`, `body` or `outline` (every other element is
// skipped whole). The scan keeps the current category as the importer does and emits
// one feed per visible feed outline.

module OpmlScan {
  import opened JavaLang
  import opened XmlPull
  import opened StoreData
  import opened ViewModel
  import opened OpmlImport

  /** The elements `readOPML()` steps into rather than skipping. */
  predicate Transparent(name: string) {
    name == "opml" || name == "body" || name == "outline"
  }

  /** The start tag at `j` is still open at event `i` (an end tag does not count as inside itself). */
  predicate Ancestor(evs: seq<Event>, j: nat, i: nat) {
    j < i < |evs| && evs[j].StartTag?
    && forall k | j <= k <= i :: Open(evs, k) >= Open(evs, j)
  }

  /** Event `i` is visible to the importer: every element around it is transparent. */
  predicate Visible(evs: seq<Event>, i: nat) {
    i < |evs| && forall j {:trigger Ancestor(evs, j, i)} | 0 <= j < i && Ancestor(evs, j, i) :: Transparent(evs[j].name)
  }

  /** The feed a feed outline gives under category `cat`. */
  function FeedOf(e: Event, cat: Option<string>): Feed
    requires IsFeedOutline(e)
  {
    Feed(0, e.attrs["xmlUrl"], e.attrs["text"], Attr(e, "htmlUrl").GetOr(""), cat.GetOr(UNCATEGORIZED), 0)
  }

  /**
   * The reference: from event `i` with current category `cat`, up to END_DOCUMENT,
   * every visible event in order. A visible end tag may clear the category (the
   * current importer only), a category outline sets it, and a feed outline
   * contributes its feed.
   */
  function Scan(d: Dialect, evs: seq<Event>, i: nat, cat: Option<string>): seq<Feed>
    requires i <= |evs|
    decreases |evs| - i
  {
    if i == |evs| || evs[i].EndDoc? then []
    else if !Visible(evs, i) then Scan(d, evs, i + 1, cat)
    else if evs[i].EndTag? then Scan(d, evs, i + 1, AtEndTag(d, evs[i], cat))
    else if IsCategoryOutline(evs[i]) then Scan(d, evs, i + 1, Attr(evs[i], "text"))
    else if IsFeedOutline(evs[i]) then [FeedOf(evs[i], cat)] + Scan(d, evs, i + 1, cat)
    else Scan(d, evs, i + 1, cat)
  }

  // ---------------------------------------------------------------------------
  // Visibility along the loop's moves

  /** One step forward from a visible event that opens nothing opaque stays visible. */
  lemma VisibleNext(evs: seq<Event>, p: nat)
    requires Visible(evs, p) && p + 1 < |evs|
    requires !evs[p].StartTag? || Transparent(evs[p].name)
    ensures Visible(evs, p + 1)
  {
    forall j | 0 <= j < p + 1 && Ancestor(evs, j, p + 1)
      ensures Transparent(evs[j].name)
    {
      if j < p {
        assert Ancestor(evs, j, p);
      }
    }
  }

  /** The end tag that closes a visible element is visible. */
  lemma VisibleAfterSkip(evs: seq<Event>, p: nat, q: nat)
    requires Visible(evs, p) && Closes(evs, p, q)
    ensures Visible(evs, q)
  {
    forall j | 0 <= j < q && Ancestor(evs, j, q)
      ensures Transparent(evs[j].name)
    {
      if j < p {
        assert Ancestor(evs, j, p);
      } else {
        assert false;
      }
    }
  }

  /** Nothing inside an opaque element is visible, so the scan passes over it. */
  lemma {:induction false} ScanSkipsOpaque(d: Dialect, evs: seq<Event>, p: nat, lo: nat, q: nat, cat: Option<string>)
    requires Closes(evs, p, q) && !Transparent(evs[p].name) && p < lo <= q
    ensures Scan(d, evs, lo, cat) == Scan(d, evs, q, cat)
    decreases q - lo
  {
    if lo < q {
      assert Ancestor(evs, p, lo);
      assert !Visible(evs, lo);
      ScanSkipsOpaque(d, evs, p, lo + 1, q, cat);
    }
  }

  // ---------------------------------------------------------------------------
  // The loop against the scan

  /**
   * From a visible event, whenever the loop of `readOPML()` succeeds it returns the
   * scan's feeds: each visible feed outline gives exactly its feed, once, in
   * document order, under the category the scan holds there.
   */
  lemma {:induction false} LoopIsScan(d: Dialect, evs: seq<Event>, p: nat, cat: Option<string>)
    requires Visible(evs, p)
    ensures OpmlLoop(d, evs, p, cat).feeds.Ok? ==> OpmlLoop(d, evs, p, cat).feeds.value == Scan(d, evs, p, cat)
    decreases |evs| - p
  {
    var e := evs[p];
    if e.EndDoc? {
    } else if !e.StartTag? {
      var cat' := if e.EndTag? then AtEndTag(d, e, cat) else cat;
      if Next(evs, p).Ok? {
        VisibleNext(evs, p);
        LoopIsScan(d, evs, p + 1, cat');
      }
    } else if e.name == "body" || e.name == "opml" {
      if NextTag(evs, p).Ok? {
        PassTag(d, evs, p, cat);
      }
    } else if e.name == "outline" {
      var o := ReadOutline(e, cat);
      if o.feed.Ok? && NextTag(evs, p).Ok? {
        OutlineStep(d, evs, p, cat);
      }
    } else if SkipEnd(evs, p).Ok? {
      var q := SkipEnd(evs, p).value;
      SkipEndCloses(evs, p);
      VisibleAfterSkip(evs, p, q);
      ScanSkipsOpaque(d, evs, p, p + 1, q, cat);
      LoopIsScan(d, evs, q, cat);
    }
  }

  /** `nextTag()` from a transparent start tag lands on a visible event, the scan unchanged. */
  lemma NextTagVisible(d: Dialect, evs: seq<Event>, p: nat, cat': Option<string>)
    requires Visible(evs, p) && evs[p].StartTag? && Transparent(evs[p].name) && NextTag(evs, p).Ok?
    ensures Visible(evs, NextTag(evs, p).value)
    ensures Scan(d, evs, p + 1, cat') == Scan(d, evs, NextTag(evs, p).value, cat')
  {
    var q := NextTag(evs, p).value;
    VisibleNext(evs, p);
    if q == p + 2 {
      VisibleNext(evs, p + 1);
    }
  }

  /** The `body`/`opml` case of `LoopIsScan`. */
  lemma {:induction false} PassTag(d: Dialect, evs: seq<Event>, p: nat, cat: Option<string>)
    requires Visible(evs, p) && evs[p].StartTag? && (evs[p].name == "body" || evs[p].name == "opml")
    requires NextTag(evs, p).Ok?
    ensures OpmlLoop(d, evs, p, cat).feeds.Ok? ==> OpmlLoop(d, evs, p, cat).feeds.value == Scan(d, evs, p, cat)
    decreases |evs| - p, 0
  {
    var q := NextTag(evs, p).value;
    NextTagVisible(d, evs, p, cat);
    assert OpmlLoop(d, evs, p, cat) == OpmlLoop(d, evs, q, cat);
    assert Scan(d, evs, p, cat) == Scan(d, evs, p + 1, cat);
    LoopIsScan(d, evs, q, cat);
  }

  /** The `outline` case of `LoopIsScan`. */
  lemma {:induction false} OutlineStep(d: Dialect, evs: seq<Event>, p: nat, cat: Option<string>)
    requires Visible(evs, p) && IsOutline(evs[p])
    requires ReadOutline(evs[p], cat).feed.Ok? && NextTag(evs, p).Ok?
    ensures OpmlLoop(d, evs, p, cat).feeds.Ok? ==> OpmlLoop(d, evs, p, cat).feeds.value == Scan(d, evs, p, cat)
    decreases |evs| - p, 0
  {
    var e := evs[p];
    var o := ReadOutline(e, cat);
    var q := NextTag(evs, p).value;
    NextTagVisible(d, evs, p, o.category);
    assert OpmlLoop(d, evs, p, cat) == Then(AsSeq(o.feed.value), OpmlLoop(d, evs, q, o.category));
    if IsFeedOutline(e) {
      assert AsSeq(o.feed.value) == [FeedOf(e, cat)];
      assert Scan(d, evs, p, cat) == [FeedOf(e, cat)] + Scan(d, evs, p + 1, cat);
    } else {
      assert AsSeq(o.feed.value) == [];
      assert Scan(d, evs, p, cat) == Scan(d, evs, p + 1, o.category);
    }
    LoopIsScan(d, evs, q, o.category);
  }

  /**
   * A fresh importer of either kind, on any document: when the import succeeds, its
   * feeds are exactly the scan's, from the first event with no category set.
   */
  lemma ParseIsScan(d: Dialect, evs: seq<Event>)
    ensures ParseOpml(d, evs, None).feeds.Ok? ==> ParseOpml(d, evs, None).feeds.value == Scan(d, evs, 0, None)
  {
    if evs != [] && TagFrom(evs, 0).Ok? {
      var q := TagFrom(evs, 0).value;
      assert Visible(evs, 0);
      if q == 1 {
        VisibleNext(evs, 0);
      }
      LoopIsScan(d, evs, q, None);
    }
  }

  /** The scan emits one feed per visible feed outline: the count of such outlines. */
  function VisibleFeedOutlines(evs: seq<Event>, i: nat): nat
    requires i <= |evs|
    decreases |evs| - i
  {
    if i == |evs| || evs[i].EndDoc? then 0
    else (if Visible(evs, i) && IsFeedOutline(evs[i]) then 1 else 0) + VisibleFeedOutlines(evs, i + 1)
  }

  /** Whatever the dialect and the categories, the scan has one feed per visible feed outline. */
  lemma {:induction false} ScanCount(d: Dialect, evs: seq<Event>, i: nat, cat: Option<string>)
    requires i <= |evs|
    ensures |Scan(d, evs, i, cat)| == VisibleFeedOutlines(evs, i)
    decreases |evs| - i
  {
    if i < |evs| && !evs[i].EndDoc? {
      if Visible(evs, i) && evs[i].EndTag? {
        ScanCount(d, evs, i + 1, AtEndTag(d, evs[i], cat));
      } else if Visible(evs, i) && IsCategoryOutline(evs[i]) {
        ScanCount(d, evs, i + 1, Attr(evs[i], "text"));
      } else {
        ScanCount(d, evs, i + 1, cat);
      }
    }
  }
}
