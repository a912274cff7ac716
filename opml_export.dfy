// `OPMLSaver.getOPMLString` (app/src/main/java/com/alex/arse/OPMLParser.kt): the
// feeds grouped by the category map, written out as an outline tree
//
//   opml > body > outline(title = text = category)
//                   > outline(title = text = name, type = "rss", xmlUrl = url)
//
// and what the importers read back from that tree.  The serializer is modelled as
// a tree writer; the rendered text (declaration, indentation, escaping) is not.

module OpmlExport {
  import opened JavaLang
  import opened XmlPull
  import opened XmlTree
  import opened StoreData
  import opened CategoryMap
  import opened ViewModel
  import opened OpmlImport

  function CategoryAttrs(key: string): map<string, string> {
    map["title" := key, "text" := key]
  }

  /** The attributes of a feed outline; `htmlUrl` is not written. */
  function FeedAttrs(f: Feed): map<string, string> {
    map["title" := f.name, "text" := f.name, "type" := "rss", "xmlUrl" := f.url]
  }

  function FeedOutline(f: Feed): Node {
    Element("outline", FeedAttrs(f), [])
  }

  function FeedOutlines(fs: seq<Feed>): (r: seq<Node>)
    ensures |r| == |fs|
    ensures forall i | 0 <= i < |fs| :: r[i] == FeedOutline(fs[i])
  {
    seq(|fs|, i requires 0 <= i < |fs| => FeedOutline(fs[i]))
  }

  function CategoryOutline(g: Group): Node {
    Element("outline", CategoryAttrs(g.key), FeedOutlines(g.feeds))
  }

  function CategoryOutlines(gs: seq<Group>): (r: seq<Node>)
    ensures |r| == |gs|
    ensures forall i | 0 <= i < |gs| :: r[i] == CategoryOutline(gs[i])
  {
    seq(|gs|, i requires 0 <= i < |gs| => CategoryOutline(gs[i]))
  }

  /** The tree `getOPMLString` writes for the groups of the category map. */
  function OpmlTree(gs: seq<Group>): Node {
    Element("opml", map[], [Element("body", map[], CategoryOutlines(gs))])
  }

  /** The exported tree: the category map of the feeds, written out. */
  function ExportTree(feeds: seq<Feed>): Node {
    OpmlTree(Grouped(feeds))
  }

  /**
   * The exported tree is `opml > body` holding one category outline per key of the
   * category map, in the map's key order, with title and text the key; each holds
   * one feed outline per feed under that key, in list order.
   */
  lemma ExportTreeShape(feeds: seq<Feed>)
    ensures var r := ExportTree(feeds);
            && r.Element? && r.name == "opml" && |r.children| == 1
            && r.children[0].Element? && r.children[0].name == "body"
            && |r.children[0].children| == |Grouped(feeds)|
    ensures forall i | 0 <= i < |Grouped(feeds)| ::
              var g := Grouped(feeds)[i];
              var o := ExportTree(feeds).children[0].children[i];
              && o == Element("outline", CategoryAttrs(g.key), o.children)
              && |o.children| == |g.feeds|
              && forall j | 0 <= j < |g.feeds| :: o.children[j] == Element("outline", FeedAttrs(g.feeds[j]), [])
  {
  }

  // ---------------------------------------------------------------------------
  // The serializer

  /** An element the writer has started and not yet ended. */
  datatype Frame = Frame(name: string, attrs: map<string, string>, children: seq<Node>)

  function Close(fr: Frame): Node {
    Element(fr.name, fr.attrs, fr.children)
  }

  /** `XmlSerializer`, building the tree it is told to write. */
  class TreeWriter {
    /** The open elements, innermost last. */
    var open: seq<Frame>
    /** The top-level elements already ended. */
    var roots: seq<Node>

    constructor()
      ensures open == [] && roots == []
    {
      open := [];
      roots := [];
    }

    /** `startTag("", name)`. */
    method StartTag(name: string)
      modifies this
      ensures open == old(open) + [Frame(name, map[], [])] && roots == old(roots)
    {
      open := open + [Frame(name, map[], [])];
    }

    /** `attribute("", key, value)` on the element just started. */
    method Attribute(key: string, value: string)
      requires open != []
      modifies this
      ensures |open| == |old(open)| && roots == old(roots)
      ensures open[..|open| - 1] == old(open)[..|open| - 1]
      ensures var top := old(open)[|open| - 1];
              open[|open| - 1] == top.(attrs := top.attrs[key := value])
    {
      var top := open[|open| - 1];
      open := open[|open| - 1 := top.(attrs := top.attrs[key := value])];
    }

    /** `endTag("", name)`: the innermost element is ended and becomes a child of its parent. */
    method EndTag(name: string)
      requires open != [] && open[|open| - 1].name == name
      modifies this
      ensures var n := Close(old(open)[|old(open)| - 1]);
              var rest := old(open)[..|old(open)| - 1];
              if rest == [] then open == [] && roots == old(roots) + [n]
              else
                && roots == old(roots)
                && open == rest[|rest| - 1 := rest[|rest| - 1].(children := rest[|rest| - 1].children + [n])]
    {
      var n := Close(open[|open| - 1]);
      var rest := open[..|open| - 1];
      if rest == [] {
        open := [];
        roots := roots + [n];
      } else {
        var parent := rest[|rest| - 1];
        open := rest[|rest| - 1 := parent.(children := parent.children + [n])];
      }
    }
  }

  /** A frame with one more child. */
  function AddChild(fr: Frame, n: Node): Frame {
    fr.(children := fr.children + [n])
  }

  /** One feed of `getOPMLString`'s inner loop: a feed outline inside the open category outline. */
  method WriteFeed(w: TreeWriter, f: Feed)
    requires w.open != []
    modifies w
    ensures w.roots == old(w.roots)
    ensures w.open == old(w.open)[|old(w.open)| - 1 := AddChild(old(w.open)[|old(w.open)| - 1], FeedOutline(f))]
  {
    w.StartTag("outline");
    w.Attribute("title", f.name);
    w.Attribute("text", f.name);
    w.Attribute("type", "rss");
    w.Attribute("xmlUrl", f.url);
    assert w.open[|w.open| - 1].attrs == FeedAttrs(f);
    w.EndTag("outline");
  }

  /** One category of `getOPMLString`'s outer loop: its outline holding one outline per feed. */
  method WriteCategory(w: TreeWriter, g: Group)
    requires w.open != []
    modifies w
    ensures w.roots == old(w.roots)
    ensures w.open == old(w.open)[|old(w.open)| - 1 := AddChild(old(w.open)[|old(w.open)| - 1], CategoryOutline(g))]
  {
    ghost var outer := w.open;
    w.StartTag("outline");
    w.Attribute("title", g.key);
    w.Attribute("text", g.key);
    assert w.open == outer + [Frame("outline", CategoryAttrs(g.key), [])];
    var j := 0;
    while j < |g.feeds|
      invariant 0 <= j <= |g.feeds|
      invariant w.roots == old(w.roots)
      invariant w.open == outer + [Frame("outline", CategoryAttrs(g.key), FeedOutlines(g.feeds[..j]))]
    {
      WriteFeed(w, g.feeds[j]);
      assert FeedOutlines(g.feeds[..j + 1]) == FeedOutlines(g.feeds[..j]) + [FeedOutline(g.feeds[j])];
      j := j + 1;
    }
    assert g.feeds[..j] == g.feeds;
    assert w.open[..|w.open| - 1] == outer;
    w.EndTag("outline");
  }

  /** `getOPMLString(feeds)`: the map from `getMapFromFeeds`, written category by category. */
  method GetOpml(feeds: seq<Feed>) returns (doc: Node)
    ensures doc == ExportTree(feeds)
  {
    var m := GetMapFromFeeds(feeds);
    var gs := m.groups;
    var w := new TreeWriter();
    w.StartTag("opml");
    w.StartTag("body");
    var i := 0;
    while i < |gs|
      invariant 0 <= i <= |gs|
      invariant w.roots == []
      invariant w.open == [Frame("opml", map[], []), Frame("body", map[], CategoryOutlines(gs[..i]))]
    {
      WriteCategory(w, gs[i]);
      assert CategoryOutlines(gs[..i + 1]) == CategoryOutlines(gs[..i]) + [CategoryOutline(gs[i])];
      i := i + 1;
    }
    assert gs[..i] == gs;
    w.EndTag("body");
    w.EndTag("opml");
    doc := w.roots[0];
  }

  // ---------------------------------------------------------------------------
  // Reading the export back

  /** The feed an importer makes of an exported feed outline, filed under `c`. */
  function Imported(f: Feed, c: string): Feed {
    GetNewFeed(f.url, f.name, "", c)
  }

  /**
   * Whether the category survives a feed outline's end tag: always for the older
   * importer; for the current one only when the end tag of a self-closed element
   * answers its start tag's `xmlUrl`.
   */
  predicate KeepsCategory(d: Dialect, mode: EndAttrs) {
    d == Legacy || mode == SelfClosedKeepsAttrs
  }

  /** The feeds read back from consecutive feed outlines, with category `c` at the first. */
  function FeedsRead(fs: seq<Feed>, c: Option<string>, keep: bool): seq<Feed> {
    if fs == [] then []
    else [Imported(fs[0], c.GetOr(UNCATEGORIZED))] + FeedsRead(fs[1..], if keep then c else None, keep)
  }

  /** The feeds read back from consecutive category outlines. */
  function GroupsRead(gs: seq<Group>, keep: bool): seq<Feed> {
    if gs == [] then [] else FeedsRead(gs[0].feeds, Some(gs[0].key), keep) + GroupsRead(gs[1..], keep)
  }

  /** Where a category's feed `i` is filed: under the key if the category survives, else only the first. */
  lemma {:induction false} FeedsReadAt(fs: seq<Feed>, key: string, keep: bool, i: nat)
    requires i < |fs|
    ensures |FeedsRead(fs, Some(key), keep)| == |fs|
    ensures FeedsRead(fs, Some(key), keep)[i] == Imported(fs[i], if keep || i == 0 then key else UNCATEGORIZED)
  {
    FeedsReadLength(fs, Some(key), keep);
    if i > 0 {
      var c := if keep then Some(key) else None;
      FeedsReadLength(fs[1..], c, keep);
      if keep {
        FeedsReadAt(fs[1..], key, keep, i - 1);
      } else {
        FeedsReadUncategorized(fs[1..], keep, i - 1);
      }
    }
  }

  lemma {:induction false} FeedsReadLength(fs: seq<Feed>, c: Option<string>, keep: bool)
    ensures |FeedsRead(fs, c, keep)| == |fs|
  {
    if fs != [] {
      FeedsReadLength(fs[1..], if keep then c else None, keep);
    }
  }

  lemma {:induction false} FeedsReadUncategorized(fs: seq<Feed>, keep: bool, i: nat)
    requires i < |fs|
    ensures |FeedsRead(fs, None, keep)| == |fs|
    ensures FeedsRead(fs, None, keep)[i] == Imported(fs[i], UNCATEGORIZED)
  {
    FeedsReadLength(fs, None, keep);
    if i > 0 {
      FeedsReadUncategorized(fs[1..], keep, i - 1);
    }
  }

  lemma FeedOutlineSer(f: Feed, mode: EndAttrs)
    ensures Ser(FeedOutline(f), mode)
         == [StartTag("outline", FeedAttrs(f)), EndTag("outline", EndAttrsOf(FeedAttrs(f), [], mode))]
  {
    assert SerAll([], mode) == [];
  }

  lemma {:induction false} FeedsSerLength(fs: seq<Feed>, mode: EndAttrs)
    ensures |SerAll(FeedOutlines(fs), mode)| == 2 * |fs|
    decreases |fs|
  {
    if fs != [] {
      assert FeedOutlines(fs)[1..] == FeedOutlines(fs[1..]);
      FeedOutlineSer(fs[0], mode);
      FeedsSerLength(fs[1..], mode);
    }
  }

  lemma {:induction false} CategoriesSerLength(gs: seq<Group>, mode: EndAttrs)
    ensures |SerAll(CategoryOutlines(gs), mode)| == SpanOf(gs)
    decreases |gs|
  {
    if gs != [] {
      assert CategoryOutlines(gs)[1..] == CategoryOutlines(gs[1..]);
      FeedsSerLength(gs[0].feeds, mode);
      CategoriesSerLength(gs[1..], mode);
    }
  }

  // ---------------------------------------------------------------------------
  // Where the exported outlines lie in the event sequence

  /** An exported feed outline's start and end tag at `b`. */
  ghost predicate FeedAt(evs: seq<Event>, b: nat, f: Feed, mode: EndAttrs) {
    b + 2 <= |evs|
    && evs[b] == StartTag("outline", FeedAttrs(f))
    && evs[b + 1] == EndTag("outline", EndAttrsOf(FeedAttrs(f), [], mode))
  }

  /** Exported feed outlines one after another from `b`. */
  ghost predicate FeedsAt(evs: seq<Event>, b: nat, fs: seq<Feed>, mode: EndAttrs)
    decreases |fs|
  {
    if fs == [] then b <= |evs|
    else FeedAt(evs, b, fs[0], mode) && FeedsAt(evs, b + 2, fs[1..], mode)
  }

  /** An exported category outline at `a`: its start tag, its feed outlines, its end tag. */
  ghost predicate CategoryAt(evs: seq<Event>, a: nat, g: Group, mode: EndAttrs) {
    g.feeds != [] && a + 2 * |g.feeds| + 2 <= |evs|
    && evs[a] == StartTag("outline", CategoryAttrs(g.key))
    && FeedsAt(evs, a + 1, g.feeds, mode)
    && evs[a + 1 + 2 * |g.feeds|] == EndTag("outline", map[])
  }

  /** Exported category outlines one after another from `a`. */
  ghost predicate CategoriesAt(evs: seq<Event>, a: nat, gs: seq<Group>, mode: EndAttrs)
    decreases |gs|
  {
    if gs == [] then a <= |evs|
    else CategoryAt(evs, a, gs[0], mode) && CategoriesAt(evs, a + 2 * |gs[0].feeds| + 2, gs[1..], mode)
  }

  function SpanOf(gs: seq<Group>): nat {
    if gs == [] then 0 else 2 * |gs[0].feeds| + 2 + SpanOf(gs[1..])
  }

  /** Serialized feed outlines lie where FeedsAt says. */
  lemma {:induction false} FeedsAtSer(evs: seq<Event>, b: nat, fs: seq<Feed>, mode: EndAttrs)
    requires At(evs, b, SerAll(FeedOutlines(fs), mode))
    ensures FeedsAt(evs, b, fs, mode)
    decreases |fs|
  {
    if fs != [] {
      var ns := FeedOutlines(fs);
      assert ns[1..] == FeedOutlines(fs[1..]);
      var h := Ser(FeedOutline(fs[0]), mode);
      assert SerAll(ns, mode) == h + SerAll(FeedOutlines(fs[1..]), mode);
      AtConcat(evs, b, h, SerAll(FeedOutlines(fs[1..]), mode));
      FeedOutlineSer(fs[0], mode);
      assert evs[b] == h[0] by { assert evs[b + 0] == h[0]; }
      assert evs[b + 1] == h[1];
      FeedsAtSer(evs, b + 2, fs[1..], mode);
    } else {
      assert SerAll(FeedOutlines(fs), mode) == [];
    }
  }

  /** A serialized category outline lies where CategoryAt says. */
  lemma CategoryAtSer(evs: seq<Event>, a: nat, g: Group, mode: EndAttrs)
    requires g.feeds != [] && At(evs, a, Ser(CategoryOutline(g), mode))
    ensures CategoryAt(evs, a, g, mode)
  {
    var inner := SerAll(FeedOutlines(g.feeds), mode);
    var endTag := EndTagOf("outline", CategoryAttrs(g.key), FeedOutlines(g.feeds), mode);
    var s := Ser(CategoryOutline(g), mode);
    assert s == [StartTag("outline", CategoryAttrs(g.key))] + inner + [endTag];
    FeedsSerLength(g.feeds, mode);
    AtConcat(evs, a, [StartTag("outline", CategoryAttrs(g.key))] + inner, [endTag]);
    AtConcat(evs, a, [StartTag("outline", CategoryAttrs(g.key))], inner);
    assert evs[a] == s[0] by { assert evs[a + 0] == s[0]; }
    assert evs[a + 1 + 2 * |g.feeds|] == endTag by { assert evs[a + (|s| - 1)] == s[|s| - 1]; }
    FeedsAtSer(evs, a + 1, g.feeds, mode);
  }

  /** Serialized category outlines lie where CategoriesAt says. */
  lemma {:induction false} CategoriesAtSer(evs: seq<Event>, a: nat, gs: seq<Group>, mode: EndAttrs)
    requires forall i | 0 <= i < |gs| :: gs[i].feeds != []
    requires At(evs, a, SerAll(CategoryOutlines(gs), mode))
    ensures CategoriesAt(evs, a, gs, mode)
    decreases |gs|
  {
    if gs != [] {
      var ns := CategoryOutlines(gs);
      assert ns[1..] == CategoryOutlines(gs[1..]);
      var h := Ser(CategoryOutline(gs[0]), mode);
      assert SerAll(ns, mode) == h + SerAll(CategoryOutlines(gs[1..]), mode);
      AtConcat(evs, a, h, SerAll(CategoryOutlines(gs[1..]), mode));
      FeedsSerLength(gs[0].feeds, mode);
      CategoryAtSer(evs, a, gs[0], mode);
      CategoriesAtSer(evs, a + 2 * |gs[0].feeds| + 2, gs[1..], mode);
    } else {
      assert SerAll(CategoryOutlines(gs), mode) == [];
    }
  }

  // ---------------------------------------------------------------------------
  // Reading the exported outlines back

  /** One exported feed outline: a feed, then its end tag, which may clear the category. */
  lemma FeedStep(d: Dialect, mode: EndAttrs, evs: seq<Event>, b: nat, f: Feed, c: Option<string>)
    requires FeedAt(evs, b, f, mode) && b + 2 < |evs|
    ensures OpmlLoop(d, evs, b, c)
         == Then([Imported(f, c.GetOr(UNCATEGORIZED))], OpmlLoop(d, evs, b + 2, if KeepsCategory(d, mode) then c else None))
  {
    assert Attr(evs[b], "htmlUrl") == None;
    assert ReadOutline(evs[b], c) == Outline(Ok(Some(Imported(f, c.GetOr(UNCATEGORIZED)))), c);
    assert NextTag(evs, b) == Ok(b + 1);
    assert AtEndTag(d, evs[b + 1], c) == if KeepsCategory(d, mode) then c else None;
  }

  /**
   * Consecutive exported feed outlines: their feeds in order, the first under `c`,
   * the later ones under `c` or "Uncategorized" as the category survives; the loop
   * then goes on at `e` with category `ce`.
   */
  lemma {:induction false} FeedsStep(d: Dialect, mode: EndAttrs, evs: seq<Event>, b: nat, fs: seq<Feed>, c: Option<string>,
                                     e: nat, ce: Option<string>)
    requires FeedsAt(evs, b, fs, mode) && e == b + 2 * |fs| && e < |evs|
    requires ce == if KeepsCategory(d, mode) || fs == [] then c else None
    ensures OpmlLoop(d, evs, b, c) == Then(FeedsRead(fs, c, KeepsCategory(d, mode)), OpmlLoop(d, evs, e, ce))
    decreases |fs|
  {
    var keep := KeepsCategory(d, mode);
    if fs == [] {
      PrependEmpty(OpmlLoop(d, evs, b, c).feeds);
    } else {
      var c' := if keep then c else None;
      var x := Imported(fs[0], c.GetOr(UNCATEGORIZED));
      var rest := FeedsRead(fs[1..], c', keep);
      FeedStep(d, mode, evs, b, fs[0], c);
      FeedsStep(d, mode, evs, b + 2, fs[1..], c', e, ce);
      ThenThen([x], rest, OpmlLoop(d, evs, e, ce));
      assert FeedsRead(fs, c, keep) == [x] + rest;
    }
  }

  /** The category after a category outline's end tag: cleared by the current importer only. */
  function AfterCategory(d: Dialect, key: string): Option<string> {
    if d == Current then None else Some(key)
  }

  /**
   * One exported category outline: the category is set, its feeds are read as in
   * FeedsStep, and its end tag (which carries no attributes) ends the category.
   */
  lemma CategoryStep(d: Dialect, mode: EndAttrs, evs: seq<Event>, a: nat, g: Group, c: Option<string>,
                     e: nat, ce: Option<string>)
    requires CategoryAt(evs, a, g, mode) && e == a + 2 * |g.feeds| + 2 && e < |evs|
    requires ce == AfterCategory(d, g.key)
    ensures OpmlLoop(d, evs, a, c) == Then(FeedsRead(g.feeds, Some(g.key), KeepsCategory(d, mode)), OpmlLoop(d, evs, e, ce))
  {
    var m := a + 1 + 2 * |g.feeds|;
    var after := if KeepsCategory(d, mode) then Some(g.key) else None;
    assert FeedAt(evs, a + 1, g.feeds[0], mode);
    CategoryOpens(d, evs, a, g.key, c);
    FeedsStep(d, mode, evs, a + 1, g.feeds, Some(g.key), m, after);
    CategoryCloses(d, mode, evs, m, g.key, after, e, ce);
  }

  /** A category outline's start tag reads no feed and sets the category. */
  lemma CategoryOpens(d: Dialect, evs: seq<Event>, a: nat, key: string, c: Option<string>)
    requires a + 1 < |evs| && evs[a] == StartTag("outline", CategoryAttrs(key)) && IsTag(evs[a + 1])
    ensures OpmlLoop(d, evs, a, c) == OpmlLoop(d, evs, a + 1, Some(key))
  {
    assert ReadOutline(evs[a], c) == Outline(Ok(None), Some(key));
    assert NextTag(evs, a) == Ok(a + 1);
    PrependEmpty(OpmlLoop(d, evs, a + 1, Some(key)).feeds);
  }

  /** A category outline's end tag ends the category for the current importer only. */
  lemma CategoryCloses(d: Dialect, mode: EndAttrs, evs: seq<Event>, m: nat, key: string, after: Option<string>,
                       e: nat, ce: Option<string>)
    requires e == m + 1 && e < |evs| && evs[m] == EndTag("outline", map[])
    requires after == (if KeepsCategory(d, mode) then Some(key) else None) && ce == AfterCategory(d, key)
    ensures OpmlLoop(d, evs, m, after) == OpmlLoop(d, evs, e, ce)
  {
    assert AtEndTag(d, evs[m], after) == ce;
    assert Next(evs, m) == Ok(m + 1);
  }

  /** The category after the last of the category outlines `gs`, starting from `c`. */
  function AfterGroups(d: Dialect, gs: seq<Group>, c: Option<string>): Option<string> {
    if gs == [] then c else AfterCategory(d, gs[|gs| - 1].key)
  }

  /** Consecutive exported category outlines: their feeds in the groups' order. */
  lemma {:induction false} GroupsStep(d: Dialect, mode: EndAttrs, evs: seq<Event>, a: nat, gs: seq<Group>, c: Option<string>,
                                      e: nat, ce: Option<string>)
    requires CategoriesAt(evs, a, gs, mode) && e == a + SpanOf(gs) && e < |evs|
    requires ce == AfterGroups(d, gs, c)
    ensures OpmlLoop(d, evs, a, c) == Then(GroupsRead(gs, KeepsCategory(d, mode)), OpmlLoop(d, evs, e, ce))
    decreases |gs|
  {
    var keep := KeepsCategory(d, mode);
    if gs == [] {
      PrependEmpty(OpmlLoop(d, evs, a, c).feeds);
    } else {
      var c' := AfterCategory(d, gs[0].key);
      var a' := a + 2 * |gs[0].feeds| + 2;
      CategoryStep(d, mode, evs, a, gs[0], c, a', c');
      AfterGroupsRest(d, gs, c);
      GroupsStep(d, mode, evs, a', gs[1..], c', e, ce);
      ThenThen(FeedsRead(gs[0].feeds, Some(gs[0].key), keep), GroupsRead(gs[1..], keep), OpmlLoop(d, evs, e, ce));
    }
  }

  lemma AfterGroupsRest(d: Dialect, gs: seq<Group>, c: Option<string>)
    requires gs != []
    ensures AfterGroups(d, gs[1..], AfterCategory(d, gs[0].key)) == AfterGroups(d, gs, c)
  {
    if gs[1..] != [] { assert gs[1..][|gs[1..]| - 1] == gs[|gs| - 1]; }
  }

  /**
   * Importing an exported document, by either importer and under either end-tag
   * behaviour of the pull parser: the feeds come back category by category, in the
   * map's order, with their url and name; each category's first feed is filed under
   * the category; the later ones are too when the category survives a feed's end
   * tag, and are "Uncategorized" otherwise.
   */
  lemma RoundTrip(d: Dialect, mode: EndAttrs, feeds: seq<Feed>)
    ensures ParseOpml(d, Document(ExportTree(feeds), mode), None).feeds == Ok(GroupsRead(Grouped(feeds), KeepsCategory(d, mode)))
  {
    var gs := Grouped(feeds);
    GroupedFaithful(feeds);
    DocumentLayout(gs, mode);
    ReadDocument(d, mode, gs, Document(ExportTree(feeds), mode));
  }

  /** Reading the document laid out by DocumentLayout for non-empty categories `gs`. */
  lemma ReadDocument(d: Dialect, mode: EndAttrs, gs: seq<Group>, evs: seq<Event>)
    requires forall i | 0 <= i < |gs| :: gs[i].feeds != []
    requires evs == [StartTag("opml", map[]), StartTag("body", map[])] + SerAll(CategoryOutlines(gs), mode)
                  + [EndTag("body", map[]), EndTag("opml", map[]), EndDoc]
    ensures ParseOpml(d, evs, None).feeds == Ok(GroupsRead(gs, KeepsCategory(d, mode)))
  {
    var cats := SerAll(CategoryOutlines(gs), mode);
    CategoriesSerLength(gs, mode);
    CategoriesStart(gs, mode);
    DocumentFacts(evs, cats);
    CategoriesAtSer(evs, 2, gs, mode);
    ReadBody(d, mode, gs, evs, 2 + SpanOf(gs));
  }

  /** The same reading, from the positions of the document's tags. */
  lemma ReadBody(d: Dialect, mode: EndAttrs, gs: seq<Group>, evs: seq<Event>, k: nat)
    requires k == 2 + SpanOf(gs) && k + 2 < |evs|
    requires evs[0] == StartTag("opml", map[]) && evs[1] == StartTag("body", map[]) && IsTag(evs[2])
    requires CategoriesAt(evs, 2, gs, mode)
    requires evs[k] == EndTag("body", map[]) && evs[k + 1] == EndTag("opml", map[]) && evs[k + 2] == EndDoc
    ensures ParseOpml(d, evs, None).feeds == Ok(GroupsRead(gs, KeepsCategory(d, mode)))
  {
    var last := AfterGroups(d, gs, None);
    GroupsStep(d, mode, evs, 2, gs, None, k, last);
    OpeningTags(d, evs);
    ClosingTags(d, evs, k, last);
    var read := GroupsRead(gs, KeepsCategory(d, mode));
    assert read + [] == read;
  }

  /** The positions of the tags around the category outlines. */
  lemma DocumentFacts(evs: seq<Event>, cats: seq<Event>)
    requires evs == [StartTag("opml", map[]), StartTag("body", map[])] + cats
                  + [EndTag("body", map[]), EndTag("opml", map[]), EndDoc]
    requires cats == [] || IsTag(cats[0])
    ensures |evs| == |cats| + 5
    ensures evs[0] == StartTag("opml", map[]) && evs[1] == StartTag("body", map[]) && IsTag(evs[2])
    ensures At(evs, 2, cats)
    ensures evs[2 + |cats|] == EndTag("body", map[]) && evs[3 + |cats|] == EndTag("opml", map[]) && evs[4 + |cats|] == EndDoc
  {
    var head := [StartTag("opml", map[]), StartTag("body", map[])];
    var tail := [EndTag("body", map[]), EndTag("opml", map[]), EndDoc];
    assert At(evs, 0, evs);
    AtConcat(evs, 0, head + cats, tail);
    AtConcat(evs, 0, head, cats);
    assert evs[2] == (cats + tail)[0];
  }

  /** The category outlines, when there are any, begin with a start tag. */
  lemma CategoriesStart(gs: seq<Group>, mode: EndAttrs)
    ensures var cats := SerAll(CategoryOutlines(gs), mode); cats == [] || IsTag(cats[0])
  {
    if gs != [] {
      var ns := CategoryOutlines(gs);
      assert SerAll(ns, mode) == Ser(ns[0], mode) + SerAll(ns[1..], mode);
    }
  }

  /** The exported document: the opml and body tags around the category outlines. */
  lemma DocumentLayout(gs: seq<Group>, mode: EndAttrs)
    ensures Document(OpmlTree(gs), mode)
         == [StartTag("opml", map[]), StartTag("body", map[])] + SerAll(CategoryOutlines(gs), mode)
          + [EndTag("body", map[]), EndTag("opml", map[]), EndDoc]
  {
    var cats := SerAll(CategoryOutlines(gs), mode);
    var body := Element("body", map[], CategoryOutlines(gs));
    assert Ser(body, mode) == [StartTag("body", map[])] + cats + [EndTag("body", map[])];
    assert SerAll([body], mode) == Ser(body, mode) by {
      assert [body][1..] == [];
      assert Ser(body, mode) + [] == Ser(body, mode);
    }
  }

  /** The importer passes over the opening opml and body tags without reading anything. */
  lemma OpeningTags(d: Dialect, evs: seq<Event>)
    requires 2 < |evs| && evs[0] == StartTag("opml", map[]) && evs[1] == StartTag("body", map[]) && IsTag(evs[2])
    ensures ParseOpml(d, evs, None) == OpmlLoop(d, evs, 2, None)
  {
    assert TagFrom(evs, 0) == Ok(0);
    assert NextTag(evs, 0) == Ok(1);
    assert NextTag(evs, 1) == Ok(2);
    assert OpmlLoop(d, evs, 1, None) == OpmlLoop(d, evs, 2, None);
    assert OpmlLoop(d, evs, 0, None) == OpmlLoop(d, evs, 1, None);
  }

  /** The closing body and opml tags and the end of the document add no feeds. */
  lemma ClosingTags(d: Dialect, evs: seq<Event>, k: nat, c: Option<string>)
    requires k + 2 < |evs|
    requires evs[k] == EndTag("body", map[]) && evs[k + 1] == EndTag("opml", map[]) && evs[k + 2] == EndDoc
    ensures OpmlLoop(d, evs, k, c).feeds == Ok([])
  {
    var c1 := AtEndTag(d, evs[k], c);
    var c2 := AtEndTag(d, evs[k + 1], c1);
    assert OpmlLoop(d, evs, k + 2, c2) == Run(Ok([]), c2);
    assert OpmlLoop(d, evs, k + 1, c1) == OpmlLoop(d, evs, k + 2, c2);
  }

  /**
   * With the end-tag attributes kept (or with the older importer), every exported
   * feed comes back with its url and name, filed under its group's key, which is
   * its own category up to case.
   */
  lemma RoundTripKeepsCategories(d: Dialect, mode: EndAttrs, feeds: seq<Feed>, i: nat, j: nat)
    requires KeepsCategory(d, mode)
    requires i < |Grouped(feeds)| && j < |Grouped(feeds)[i].feeds|
    ensures var g := Grouped(feeds)[i];
            && ParseOpml(d, Document(ExportTree(feeds), mode), None).feeds.Ok?
            && Imported(g.feeds[j], g.key) in ParseOpml(d, Document(ExportTree(feeds), mode), None).feeds.value
            && ToLower(g.key) == ToLower(g.feeds[j].category)
  {
    RoundTrip(d, mode, feeds);
    var gs := Grouped(feeds);
    GroupedFaithful(feeds);
    GroupMembers(gs, feeds, i, gs[i].feeds[j]);
    FeedsReadAt(gs[i].feeds, gs[i].key, true, j);
    GroupsReadHas(gs, true, i, j);
  }

  /**
   * When the current importer reads through a pull parser that answers nothing at
   * end tags, only the first feed of each category keeps it; the second one is
   * "Uncategorized".
   */
  lemma RoundTripLosesCategories(feeds: seq<Feed>, i: nat)
    requires i < |Grouped(feeds)| && |Grouped(feeds)[i].feeds| >= 2
    ensures var g := Grouped(feeds)[i];
            && ParseOpml(Current, Document(ExportTree(feeds), NoEndAttrs), None).feeds.Ok?
            && Imported(g.feeds[1], UNCATEGORIZED) in ParseOpml(Current, Document(ExportTree(feeds), NoEndAttrs), None).feeds.value
  {
    RoundTrip(Current, NoEndAttrs, feeds);
    var gs := Grouped(feeds);
    FeedsReadAt(gs[i].feeds, gs[i].key, false, 1);
    GroupsReadHas(gs, false, i, 1);
  }

  lemma {:induction false} GroupsReadHas(gs: seq<Group>, keep: bool, i: nat, j: nat)
    requires i < |gs| && j < |gs[i].feeds|
    ensures |FeedsRead(gs[i].feeds, Some(gs[i].key), keep)| == |gs[i].feeds|
    ensures FeedsRead(gs[i].feeds, Some(gs[i].key), keep)[j] in GroupsRead(gs, keep)
  {
    FeedsReadLength(gs[i].feeds, Some(gs[i].key), keep);
    if i > 0 {
      GroupsReadHas(gs[1..], keep, i - 1, j);
    }
  }

  /** Every exported feed comes back: the import is as long as the feed list. */
  lemma RoundTripCount(d: Dialect, mode: EndAttrs, feeds: seq<Feed>)
    ensures ParseOpml(d, Document(ExportTree(feeds), mode), None).feeds.Ok?
    ensures |ParseOpml(d, Document(ExportTree(feeds), mode), None).feeds.value| == |feeds|
  {
    RoundTrip(d, mode, feeds);
    GroupedTotal(feeds);
    GroupsReadTotal(Grouped(feeds), KeepsCategory(d, mode));
  }

  lemma {:induction false} GroupsReadTotal(gs: seq<Group>, keep: bool)
    ensures |GroupsRead(gs, keep)| == Total(gs)
  {
    if gs != [] {
      FeedsReadLength(gs[0].feeds, Some(gs[0].key), keep);
      GroupsReadTotal(gs[1..], keep);
    }
  }
}
