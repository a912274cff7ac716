// What the current app's `readFeed` reads from a whole document: the feed loop
// over a serialized tree, compared with the tree walk a reader of RSS 2.0 and
// Atom documents expects.

module FeedTree {
  import opened JavaLang
  import opened XmlPull
  import opened XmlTree
  import opened FeedCommon
  import opened FeedParser

  // ---------------------------------------------------------------------------
  // Facts about laid-out pieces

  lemma AtTail(evs: seq<Event>, a: nat, s: seq<Event>)
    requires At(evs, a, s) && s != []
    ensures evs[a] == s[0] && At(evs, a + 1, s[1..])
  {
    assert evs[a + 0] == s[0];
    forall i | 0 <= i < |s| - 1
      ensures evs[a + 1 + i] == s[1..][i]
    {
      assert evs[a + (1 + i)] == s[1 + i];
    }
  }

  lemma PSerFirst(ps: seq<Piece>, mode: EndAttrs)
    requires ps != []
    ensures PSer(ps, mode) != [] && PSer(ps, mode)[0] == PieceSer(ps[0], mode)[0]
    ensures |PSer(ps, mode)| == |PieceSer(ps[0], mode)| + |PSer(ps[1..], mode)|
  {
  }

  /** After one more `next()`, the rest of the pieces are laid out one position on. */
  lemma DropOneAt(evs: seq<Event>, a: nat, ps: seq<Piece>, mode: EndAttrs)
    requires ps != [] && PiecesAt(evs, a, ps, mode)
    ensures PiecesAt(evs, a + 1, DropOne(ps, mode), mode)
    ensures |PSer(DropOne(ps, mode), mode)| == |PSer(ps, mode)| - 1
  {
    PSerFirst(ps, mode);
    DropOneSer(ps, mode);
    AtTail(evs, a, PSer(ps, mode));
  }

  lemma DropOneNonEmpty(ps: seq<Piece>, mode: EndAttrs)
    requires ps != [] && ps[0].Whole? && ps[0].node.Element?
    ensures DropOne(ps, mode) != []
  {
    var n := ps[0].node;
    assert DropOne(ps, mode) == Wholes(n.children) + [Loose(n.name, EndAttrsOf(n.attrs, n.children, mode))] + ps[1..];
  }

  /** The first event of a piece: a start tag for an element, never END_DOCUMENT. */
  lemma PieceFirst(c: Piece, mode: EndAttrs)
    ensures c.Whole? && c.node.Element? ==> PieceSer(c, mode)[0] == StartTag(c.node.name, c.node.attrs)
    ensures c.Whole? && c.node.TextNode? ==> PieceSer(c, mode)[0] == Text(c.node.text)
    ensures c.Loose? ==> PieceSer(c, mode)[0] == EndTag(c.name, c.attrs)
    ensures !PieceSer(c, mode)[0].EndDoc?
  {
  }

  // ---------------------------------------------------------------------------
  // The walk of readFeed over pieces

  /**
   * The positions of the `item` / `entry` start tags that `readFeed` hands to
   * `readEntry`, for pieces laid out from position `off`: end tags and texts are
   * passed over, any other element is skipped whole, and `channel` is opened with
   * one event more than its start tag.
   */
  function Visit(ps: seq<Piece>, off: nat, mode: EndAttrs): seq<nat>
    decreases |PSer(ps, mode)|
  {
    if ps == [] then []
    else
      PSerFirst(ps, mode);
      match ps[0]
      case Loose(_, _) => Visit(ps[1..], off + 1, mode)
      case Whole(n) =>
        if n.TextNode? then Visit(ps[1..], off + 1, mode)
        else if n.name == "channel" then
          DropOneSer(ps, mode);
          DropOneNonEmpty(ps, mode);
          var once := DropOne(ps, mode);
          DropOneSer(once, mode);
          Visit(DropOne(once, mode), off + 2, mode)
        else if n.name == "item" || n.name == "entry" then
          [off] + Visit(ps[1..], off + |Ser(n, mode)|, mode)
        else Visit(ps[1..], off + |Ser(n, mode)|, mode)
  }

  lemma VisitPass(ps: seq<Piece>, off: nat, mode: EndAttrs)
    requires ps != [] && (ps[0].Loose? || ps[0].node.TextNode?)
    ensures Visit(ps, off, mode) == Visit(ps[1..], off + 1, mode)
  {
  }

  lemma VisitChannel(ps: seq<Piece>, off: nat, mode: EndAttrs)
    requires ps != [] && ps[0].Whole? && ps[0].node.Element? && ps[0].node.name == "channel"
    ensures DropOne(ps, mode) != []
    ensures Visit(ps, off, mode) == Visit(DropOne(DropOne(ps, mode), mode), off + 2, mode)
  {
    DropOneNonEmpty(ps, mode);
  }

  lemma VisitEntry(ps: seq<Piece>, off: nat, mode: EndAttrs)
    requires ps != [] && ps[0].Whole? && ps[0].node.Element?
    requires ps[0].node.name == "item" || ps[0].node.name == "entry"
    ensures Visit(ps, off, mode) == [off] + Visit(ps[1..], off + |Ser(ps[0].node, mode)|, mode)
  {
  }

  lemma VisitSkip(ps: seq<Piece>, off: nat, mode: EndAttrs)
    requires ps != [] && ps[0].Whole? && ps[0].node.Element?
    requires ps[0].node.name !in {"channel", "item", "entry"}
    ensures Visit(ps, off, mode) == Visit(ps[1..], off + |Ser(ps[0].node, mode)|, mode)
  {
  }

  // The loop of `readFeed`, one event at a time.

  lemma FeedLoopPass(f: Foreign, feedId: Int32, evs: seq<Event>, p: nat)
    requires p + 1 < |evs| && !evs[p].EndDoc? && !evs[p + 1].EndDoc? && !evs[p + 1].StartTag?
    ensures FeedLoop(f, feedId, evs, p) == FeedLoop(f, feedId, evs, p + 1)
  {
  }

  lemma FeedLoopChannel(f: Foreign, feedId: Int32, evs: seq<Event>, p: nat)
    requires p + 2 < |evs| && !evs[p].EndDoc? && !evs[p + 1].EndDoc?
    requires evs[p + 1].StartTag? && evs[p + 1].name == "channel"
    ensures FeedLoop(f, feedId, evs, p) == FeedLoop(f, feedId, evs, p + 2)
  {
  }

  lemma FeedLoopEntry(f: Foreign, feedId: Int32, evs: seq<Event>, p: nat, e: nat)
    requires p + 1 < |evs| && !evs[p].EndDoc?
    requires evs[p + 1].StartTag? && (evs[p + 1].name == "item" || evs[p + 1].name == "entry")
    ensures EntryEnd(f, feedId, evs, p + 1).Err? ==>
              FeedLoop(f, feedId, evs, p) == Err(EntryEnd(f, feedId, evs, p + 1).error)
    ensures EntryEnd(f, feedId, evs, p + 1).Ok? ==>
              FeedLoop(f, feedId, evs, p)
              == Prepend([EntryEnd(f, feedId, evs, p + 1).value.0],
                         FeedLoop(f, feedId, evs, EntryEnd(f, feedId, evs, p + 1).value.1))
  {
  }

  lemma FeedLoopSkip(f: Foreign, feedId: Int32, evs: seq<Event>, p: nat, e: nat)
    requires p + 1 < |evs| && !evs[p].EndDoc?
    requires evs[p + 1].StartTag? && evs[p + 1].name !in {"channel", "item", "entry"}
    requires SkipEnd(evs, p + 1) == Ok(e)
    ensures FeedLoop(f, feedId, evs, p) == FeedLoop(f, feedId, evs, e)
  {
  }

  /** `readEntry` at each position in turn; the first failure wins. */
  function EntriesAt(f: Foreign, feedId: Int32, evs: seq<Event>, xs: seq<nat>): Result<seq<ParsedPost>>
  {
    if xs == [] then Ok([])
    else if xs[0] >= |evs| then Err(XmlError)
    else
      var e :- EntryEnd(f, feedId, evs, xs[0]);
      Prepend([e.0], EntriesAt(f, feedId, evs, xs[1..]))
  }

  /** The pieces are laid out right after `p` and END_DOCUMENT right after them. */
  predicate LaidOut(evs: seq<Event>, p: nat, ps: seq<Piece>, mode: EndAttrs) {
    p < |evs| && !evs[p].EndDoc? && PiecesAt(evs, p + 1, ps, mode)
    && p + 1 + |PSer(ps, mode)| < |evs| && evs[p + 1 + |PSer(ps, mode)|] == EndDoc
  }

  /** A serialized element at `q` is skipped by `skip` up to its own end tag. */
  lemma SkipSpan(evs: seq<Event>, q: nat, n: Node, mode: EndAttrs)
    requires n.Element? && At(evs, q, Ser(n, mode))
    ensures q + |Ser(n, mode)| - 1 < |evs|
    ensures SkipEnd(evs, q) == Ok(q + |Ser(n, mode)| - 1)
  {
    ElementCloses(evs, q, n, mode);
    SkipEndCloses(evs, q);
  }

  /** A serialized element at `q` that `readEntry` reads is read up to its own end tag. */
  lemma ElementSpan(f: Foreign, feedId: Int32, evs: seq<Event>, q: nat, n: Node, mode: EndAttrs)
    requires n.Element? && At(evs, q, Ser(n, mode))
    ensures EntryEnd(f, feedId, evs, q).Ok? ==> EntryEnd(f, feedId, evs, q).value.1 == q + |Ser(n, mode)| - 1
  {
    ElementCloses(evs, q, n, mode);
    EntryEndCloses(f, feedId, evs, q);
    if EntryEnd(f, feedId, evs, q).Ok? {
      ClosesUnique(evs, q, EntryEnd(f, feedId, evs, q).value.1, q + |Ser(n, mode)| - 1);
    }
  }

  /**
   * The loop of `readFeed` over laid-out pieces reads exactly the entries at the
   * positions `Visit` lists, and fails exactly where one of them fails.
   */
  lemma {:induction false} FeedLoopPieces(f: Foreign, feedId: Int32, evs: seq<Event>, p: nat, ps: seq<Piece>, mode: EndAttrs)
    requires LaidOut(evs, p, ps, mode)
    ensures FeedLoop(f, feedId, evs, p) == EntriesAt(f, feedId, evs, Visit(ps, p + 1, mode))
    decreases |PSer(ps, mode)|, 1
  {
    if ps == [] {
      assert evs[p + 1] == EndDoc;
    } else if ps[0].Loose? || ps[0].node.TextNode? {
      PassPieces(f, feedId, evs, p, ps, mode);
    } else if ps[0].node.name == "channel" {
      ChannelPieces(f, feedId, evs, p, ps, mode);
    } else if ps[0].node.name == "item" || ps[0].node.name == "entry" {
      EntryPieces(f, feedId, evs, p, ps, mode);
    } else {
      SkipPieces(f, feedId, evs, p, ps, mode);
    }
  }

  /** Past the first piece, the rest are laid out as well. */
  lemma LaidOutRest(evs: seq<Event>, p: nat, ps: seq<Piece>, mode: EndAttrs)
    requires LaidOut(evs, p, ps, mode) && ps != []
    ensures At(evs, p + 1, PieceSer(ps[0], mode))
    ensures evs[p + 1] == PieceSer(ps[0], mode)[0]
    ensures LaidOut(evs, p + |PieceSer(ps[0], mode)|, ps[1..], mode)
  {
    LaidOutHead(evs, p, ps, mode);
    LaidOutTail(evs, p, ps, mode);
  }

  lemma LaidOutHead(evs: seq<Event>, p: nat, ps: seq<Piece>, mode: EndAttrs)
    requires LaidOut(evs, p, ps, mode) && ps != []
    ensures At(evs, p + 1, PieceSer(ps[0], mode))
    ensures evs[p + 1] == PieceSer(ps[0], mode)[0]
    ensures !evs[p + |PieceSer(ps[0], mode)|].EndDoc?
  {
    PiecesAtCons(evs, p + 1, ps, mode);
    PieceEnds(evs, p + 1, ps[0], mode);
  }

  /** A piece laid out at `a` starts with its first event and does not end with END_DOCUMENT. */
  lemma PieceEnds(evs: seq<Event>, a: nat, c: Piece, mode: EndAttrs)
    requires At(evs, a, PieceSer(c, mode))
    ensures evs[a] == PieceSer(c, mode)[0]
    ensures !evs[a + |PieceSer(c, mode)| - 1].EndDoc?
  {
    var s := PieceSer(c, mode);
    AtIndex(evs, a, s, |s| - 1);
    AtIndex(evs, a, s, 0);
    PieceLast(c, mode);
  }

  lemma LaidOutTail(evs: seq<Event>, p: nat, ps: seq<Piece>, mode: EndAttrs)
    requires LaidOut(evs, p, ps, mode) && ps != []
    ensures LaidOut(evs, p + |PieceSer(ps[0], mode)|, ps[1..], mode)
  {
    var k := |PieceSer(ps[0], mode)|;
    PiecesAtCons(evs, p + 1, ps, mode);
    PSerFirst(ps, mode);
    LaidOutHead(evs, p, ps, mode);
  }

  lemma AtIndex(evs: seq<Event>, a: nat, s: seq<Event>, i: nat)
    requires At(evs, a, s) && i < |s|
    ensures evs[a + i] == s[i]
  {
    assert evs[a + i] == s[i];
  }

  /** The last event of a piece is not END_DOCUMENT. */
  lemma PieceLast(c: Piece, mode: EndAttrs)
    ensures !PieceSer(c, mode)[|PieceSer(c, mode)| - 1].EndDoc?
  {
    if c.Whole? {
      SerLive(c.node, mode);
    }
  }

  lemma {:induction false} PassPieces(f: Foreign, feedId: Int32, evs: seq<Event>, p: nat, ps: seq<Piece>, mode: EndAttrs)
    requires LaidOut(evs, p, ps, mode) && ps != [] && (ps[0].Loose? || ps[0].node.TextNode?)
    ensures FeedLoop(f, feedId, evs, p) == EntriesAt(f, feedId, evs, Visit(ps, p + 1, mode))
    decreases |PSer(ps, mode)|, 0
  {
    PassLayout(evs, p, ps, mode);
    VisitPass(ps, p + 1, mode);
    FeedLoopPass(f, feedId, evs, p);
    FeedLoopPieces(f, feedId, evs, p + 1, ps[1..], mode);
  }

  /** Past an end tag or a text, the rest of the pieces are laid out one position on. */
  lemma PassLayout(evs: seq<Event>, p: nat, ps: seq<Piece>, mode: EndAttrs)
    requires LaidOut(evs, p, ps, mode) && ps != [] && (ps[0].Loose? || ps[0].node.TextNode?)
    ensures p + 1 < |evs| && !evs[p].EndDoc? && !evs[p + 1].EndDoc? && !evs[p + 1].StartTag?
    ensures LaidOut(evs, p + 1, ps[1..], mode)
    ensures |PSer(ps[1..], mode)| < |PSer(ps, mode)|
  {
    LaidOutRest(evs, p, ps, mode);
    PieceFirst(ps[0], mode);
    PSerFirst(ps, mode);
  }

  /** A whole element first: its serialization is at `p + 1`, the rest follow it. */
  lemma ElementLayout(evs: seq<Event>, p: nat, ps: seq<Piece>, mode: EndAttrs)
    requires LaidOut(evs, p, ps, mode) && ps != [] && ps[0].Whole? && ps[0].node.Element?
    ensures p + 1 < |evs| && !evs[p].EndDoc?
    ensures evs[p + 1] == StartTag(ps[0].node.name, ps[0].node.attrs)
    ensures At(evs, p + 1, Ser(ps[0].node, mode))
    ensures LaidOut(evs, p + |Ser(ps[0].node, mode)|, ps[1..], mode)
    ensures |PSer(ps[1..], mode)| < |PSer(ps, mode)|
  {
    LaidOutRest(evs, p, ps, mode);
    PieceFirst(ps[0], mode);
    PSerFirst(ps, mode);
  }

  lemma {:induction false} SkipPieces(f: Foreign, feedId: Int32, evs: seq<Event>, p: nat, ps: seq<Piece>, mode: EndAttrs)
    requires LaidOut(evs, p, ps, mode) && ps != [] && ps[0].Whole? && ps[0].node.Element?
    requires ps[0].node.name !in {"channel", "item", "entry"}
    ensures FeedLoop(f, feedId, evs, p) == EntriesAt(f, feedId, evs, Visit(ps, p + 1, mode))
    decreases |PSer(ps, mode)|, 0
  {
    var n := ps[0].node;
    ElementLayout(evs, p, ps, mode);
    SkipSpan(evs, p + 1, n, mode);
    VisitSkip(ps, p + 1, mode);
    FeedLoopSkip(f, feedId, evs, p, p + |Ser(n, mode)|);
    FeedLoopPieces(f, feedId, evs, p + |Ser(n, mode)|, ps[1..], mode);
  }

  lemma {:induction false} ChannelPieces(f: Foreign, feedId: Int32, evs: seq<Event>, p: nat, ps: seq<Piece>, mode: EndAttrs)
    requires LaidOut(evs, p, ps, mode) && ps != []
    requires ps[0].Whole? && ps[0].node.Element? && ps[0].node.name == "channel"
    ensures FeedLoop(f, feedId, evs, p) == EntriesAt(f, feedId, evs, Visit(ps, p + 1, mode))
    decreases |PSer(ps, mode)|, 0
  {
    LaidOutChannel(evs, p, ps, mode);
    VisitChannel(ps, p + 1, mode);
    FeedLoopChannel(f, feedId, evs, p);
    FeedLoopPieces(f, feedId, evs, p + 2, DropOne(DropOne(ps, mode), mode), mode);
  }

  /** Two events into a channel, the pieces left are still laid out. */
  lemma LaidOutChannel(evs: seq<Event>, p: nat, ps: seq<Piece>, mode: EndAttrs)
    requires LaidOut(evs, p, ps, mode) && ps != []
    requires ps[0].Whole? && ps[0].node.Element? && ps[0].node.name == "channel"
    ensures evs[p + 1].StartTag? && evs[p + 1].name == "channel"
    ensures p + 2 < |evs| && !evs[p + 1].EndDoc?
    ensures DropOne(ps, mode) != []
    ensures LaidOut(evs, p + 2, DropOne(DropOne(ps, mode), mode), mode)
    ensures |PSer(DropOne(DropOne(ps, mode), mode), mode)| < |PSer(ps, mode)|
  {
    LaidOutDrop(evs, p, ps, mode);
    PieceFirst(ps[0], mode);
    DropOneNonEmpty(ps, mode);
    LaidOutDrop(evs, p + 1, DropOne(ps, mode), mode);
  }

  /** One `next()` further, the pieces left after it are laid out. */
  lemma LaidOutDrop(evs: seq<Event>, p: nat, ps: seq<Piece>, mode: EndAttrs)
    requires LaidOut(evs, p, ps, mode) && ps != []
    ensures evs[p + 1] == PieceSer(ps[0], mode)[0]
    ensures LaidOut(evs, p + 1, DropOne(ps, mode), mode)
    ensures |PSer(DropOne(ps, mode), mode)| == |PSer(ps, mode)| - 1
  {
    var s := PSer(ps, mode);
    PSerFirst(ps, mode);
    PieceFirst(ps[0], mode);
    AtIndex(evs, p + 1, s, 0);
    DropOneAt(evs, p + 1, ps, mode);
    assert p + 1 + 1 + |PSer(DropOne(ps, mode), mode)| == p + 1 + |s|;
  }

  lemma {:induction false} EntryPieces(f: Foreign, feedId: Int32, evs: seq<Event>, p: nat, ps: seq<Piece>, mode: EndAttrs)
    requires LaidOut(evs, p, ps, mode) && ps != []
    requires ps[0].Whole? && ps[0].node.Element? && (ps[0].node.name == "item" || ps[0].node.name == "entry")
    ensures FeedLoop(f, feedId, evs, p) == EntriesAt(f, feedId, evs, Visit(ps, p + 1, mode))
    decreases |PSer(ps, mode)|, 0
  {
    var n := ps[0].node;
    var e := p + |Ser(n, mode)|;
    var ys := Visit(ps[1..], e + 1, mode);
    ElementLayout(evs, p, ps, mode);
    ElementSpan(f, feedId, evs, p + 1, n, mode);
    VisitEntry(ps, p + 1, mode);
    FeedLoopEntry(f, feedId, evs, p, e);
    EntriesAtCons(f, feedId, evs, p + 1, ys);
    var r := EntryEnd(f, feedId, evs, p + 1);
    if r.Ok? {
      FeedLoopPieces(f, feedId, evs, e, ps[1..], mode);
      assert FeedLoop(f, feedId, evs, p) == Prepend([r.value.0], EntriesAt(f, feedId, evs, ys));
    } else {
      assert FeedLoop(f, feedId, evs, p) == Err(r.error);
    }
  }

  /** The entries at `[q] + ys`: the entry at `q`, then those at `ys`. */
  lemma EntriesAtCons(f: Foreign, feedId: Int32, evs: seq<Event>, q: nat, ys: seq<nat>)
    requires q < |evs|
    ensures EntryEnd(f, feedId, evs, q).Err? ==>
              EntriesAt(f, feedId, evs, [q] + ys) == Err(EntryEnd(f, feedId, evs, q).error)
    ensures EntryEnd(f, feedId, evs, q).Ok? ==>
              EntriesAt(f, feedId, evs, [q] + ys) == Prepend([EntryEnd(f, feedId, evs, q).value.0], EntriesAt(f, feedId, evs, ys))
  {
    var xs := [q] + ys;
    assert xs[0] == q && xs[1..] == ys;
  }

  lemma ParseDocument(f: Foreign, feedId: Int32, root: Node, mode: EndAttrs)
    ensures root.TextNode? ==> ParseFeed(f, feedId, Document(root, mode)) == Err(XmlError)
    ensures root.Element? ==>
      ParseFeed(f, feedId, Document(root, mode))
      == EntriesAt(f, feedId, Document(root, mode), Visit(DropOne([Whole(root)], mode), 1, mode))
  {
    var evs := Document(root, mode);
    if root.Element? {
      RootLaidOut(root, mode);
      ParseFeedPieces(f, feedId, evs, DropOne([Whole(root)], mode), mode);
    } else {
      assert evs == [Text(root.text), EndDoc];
      ParseFeedTextRoot(f, feedId, root.text);
    }
  }

  /** A start tag first and pieces laid out after it: the entries `Visit` lists. */
  lemma ParseFeedPieces(f: Foreign, feedId: Int32, evs: seq<Event>, ps: seq<Piece>, mode: EndAttrs)
    requires evs != [] && evs[0].StartTag? && LaidOut(evs, 0, ps, mode)
    ensures ParseFeed(f, feedId, evs) == EntriesAt(f, feedId, evs, Visit(ps, 1, mode))
  {
    ParseFeedAtTag(f, feedId, evs);
    FeedLoopPieces(f, feedId, evs, 0, ps, mode);
  }

  lemma ParseFeedAtTag(f: Foreign, feedId: Int32, evs: seq<Event>)
    requires evs != [] && evs[0].StartTag?
    ensures ParseFeed(f, feedId, evs) == FeedLoop(f, feedId, evs, 0)
  {
  }

  lemma ParseFeedTextRoot(f: Foreign, feedId: Int32, t: string)
    ensures ParseFeed(f, feedId, [Text(t), EndDoc]) == Err(XmlError)
  {
  }

  /** In a document, the root's start tag is first and the rest of the root is laid out after it. */
  lemma RootLaidOut(root: Node, mode: EndAttrs)
    requires root.Element?
    ensures Document(root, mode) != [] && Document(root, mode)[0] == StartTag(root.name, root.attrs)
    ensures LaidOut(Document(root, mode), 0, DropOne([Whole(root)], mode), mode)
  {
    var evs := Document(root, mode);
    var s := Ser(root, mode);
    assert evs == s + [EndDoc];
    assert PSer([Whole(root)], mode) == s;
    assert At(evs, 0, s) by {
      forall i | 0 <= i < |s|
        ensures evs[0 + i] == s[i]
      {
      }
    }
    DropOneAt(evs, 0, [Whole(root)], mode);
  }

  // ---------------------------------------------------------------------------
  // The expected tree walk

  /**
   * The positions of the entries a reader of RSS 2.0 (`rss` / `channel` / `item`)
   * and Atom (`feed` / `entry`) expects among nodes laid out from `off`: an item or
   * entry is read, a channel is searched, anything else is passed over.
   */
  function RefItems(ns: seq<Node>, off: nat, mode: EndAttrs): seq<nat>
    decreases |SerAll(ns, mode)|
  {
    if ns == [] then []
    else
      var n := ns[0];
      var len := |Ser(n, mode)|;
      SerAllCons(n, ns[1..], mode);
      assert [n] + ns[1..] == ns;
      match n
      case TextNode(_) => RefItems(ns[1..], off + 1, mode)
      case Element(nm, _, ch) =>
        if nm == "item" || nm == "entry" then [off] + RefItems(ns[1..], off + len, mode)
        else if nm == "channel" then RefItems(ch, off + 1, mode) + RefItems(ns[1..], off + len, mode)
        else RefItems(ns[1..], off + len, mode)
  }

  /**
   * The extra `next()` after `<channel>` is harmless when the channel's first child
   * is white space (a pretty-printed feed), or an element other than an item or
   * entry that holds only text (a `<title>` written right after `<channel>`).
   */
  predicate FirstChildHarmless(ch: seq<Node>) {
    ch == [] || ch[0].TextNode?
    || (ch[0].name != "item" && ch[0].name != "entry"
        && forall i | 0 <= i < |ch[0].children| :: ch[0].children[i].TextNode?)
  }

  /** Every channel the walk searches has a harmless first child. */
  predicate NoGlitch(ns: seq<Node>, mode: EndAttrs)
    decreases |SerAll(ns, mode)|
  {
    ns == [] ||
    (SerAllCons(ns[0], ns[1..], mode);
     assert [ns[0]] + ns[1..] == ns;
     && (ns[0].Element? && ns[0].name == "channel" ==>
           FirstChildHarmless(ns[0].children) && NoGlitch(ns[0].children, mode))
     && NoGlitch(ns[1..], mode))
  }

  lemma {:induction false} VisitTexts(ns: seq<Node>, rest: seq<Piece>, off: nat, mode: EndAttrs)
    requires forall i | 0 <= i < |ns| :: ns[i].TextNode?
    ensures Visit(Wholes(ns) + rest, off, mode) == Visit(rest, off + |ns|, mode)
    decreases |ns|
  {
    if ns == [] {
      assert Wholes(ns) + rest == rest;
    } else {
      var ps := Wholes(ns) + rest;
      assert ps[0] == Whole(ns[0]);
      assert ps[1..] == Wholes(ns[1..]) + rest;
      VisitPass(ps, off, mode);
      VisitTexts(ns[1..], rest, off + 1, mode);
    }
  }

  /** Text nodes hold no entries and take one position each. */
  lemma {:induction false} RefTexts(ns: seq<Node>, off: nat, mode: EndAttrs)
    requires forall i | 0 <= i < |ns| :: ns[i].TextNode?
    ensures RefItems(ns, off, mode) == [] && |SerAll(ns, mode)| == |ns|
    decreases |ns|
  {
    if ns != [] {
      RefTexts(ns[1..], off + 1, mode);
    }
  }

  /** The pieces for nodes `ns` followed by `rest`, split after the first node. */
  lemma WholesCons(ns: seq<Node>, rest: seq<Piece>, mode: EndAttrs)
    requires ns != []
    ensures var ps := Wholes(ns) + rest;
      ps != [] && ps[0] == Whole(ns[0]) && ps[1..] == Wholes(ns[1..]) + rest
    ensures |SerAll(ns, mode)| == |Ser(ns[0], mode)| + |SerAll(ns[1..], mode)|
  {
    assert Wholes(ns)[1..] == Wholes(ns[1..]);
  }

  /** `[c] + xs` split after its first piece. */
  lemma ConsPiece(c: Piece, xs: seq<Piece>)
    ensures ([c] + xs)[0] == c && ([c] + xs)[1..] == xs
  {
  }

  /** One `next()` into an element: its children, its end tag, then what followed it. */
  lemma DropElement(n: Node, after: seq<Piece>, mode: EndAttrs)
    requires n.Element?
    ensures DropOne([Whole(n)] + after, mode)
         == Wholes(n.children) + ([Loose(n.name, EndAttrsOf(n.attrs, n.children, mode))] + after)
  {
    ConsPiece(Whole(n), after);
  }

  lemma DropWholeFirst(ns: seq<Node>, x: seq<Piece>, mode: EndAttrs)
    requires ns != []
    ensures Wholes(ns) + x == [Whole(ns[0])] + (Wholes(ns[1..]) + x)
  {
    WholesCons(ns, x, mode);
  }

  /** The expected walk over a channel followed by other nodes. */
  lemma RefChannel(ns: seq<Node>, off: nat, mode: EndAttrs)
    requires ns != [] && ns[0].Element? && ns[0].name == "channel"
    ensures RefItems(ns, off, mode)
         == RefItems(ns[0].children, off + 1, mode) + RefItems(ns[1..], off + |Ser(ns[0], mode)|, mode)
  {
  }

  /** The expected walk over any other first node. */
  lemma RefOther(ns: seq<Node>, off: nat, mode: EndAttrs)
    requires ns != [] && !(ns[0].Element? && ns[0].name == "channel")
    ensures RefItems(ns, off, mode)
         == (if ns[0].Element? && (ns[0].name == "item" || ns[0].name == "entry") then [off] else [])
            + RefItems(ns[1..], off + |Ser(ns[0], mode)|, mode)
  {
  }

  lemma ElementSize(n: Node, mode: EndAttrs)
    requires n.Element?
    ensures |Ser(n, mode)| == |SerAll(n.children, mode)| + 2
  {
  }

  /**
   * Without the glitch, the walk of `readFeed` over whole nodes is the expected
   * walk, followed by whatever comes after them.
   */
  lemma {:induction false} VisitIsRef(ns: seq<Node>, rest: seq<Piece>, off: nat, mode: EndAttrs)
    requires NoGlitch(ns, mode)
    ensures Visit(Wholes(ns) + rest, off, mode)
         == RefItems(ns, off, mode) + Visit(rest, off + |SerAll(ns, mode)|, mode)
    decreases |SerAll(ns, mode)|, 2
  {
    if ns == [] {
      assert Wholes(ns) + rest == rest;
    } else {
      var n := ns[0];
      var len := |Ser(n, mode)|;
      WholesCons(ns, rest, mode);
      assert NoGlitch(ns[1..], mode);
      VisitIsRef(ns[1..], rest, off + len, mode);
      if n.Element? && n.name == "channel" {
        DropWholeFirst(ns, rest, mode);
        ChannelStep(n, Wholes(ns[1..]) + rest, off, mode);
        ChannelThenRest(ns, rest, off, mode);
      } else {
        NodeThenRest(ns, rest, off, mode);
      }
    }
  }

  /** The step of `VisitIsRef` for a first node that is not a channel. */
  lemma NodeThenRest(ns: seq<Node>, rest: seq<Piece>, off: nat, mode: EndAttrs)
    requires ns != [] && !(ns[0].Element? && ns[0].name == "channel")
    requires var len := |Ser(ns[0], mode)|;
      Visit(Wholes(ns[1..]) + rest, off + len, mode)
      == RefItems(ns[1..], off + len, mode) + Visit(rest, off + len + |SerAll(ns[1..], mode)|, mode)
    ensures Visit(Wholes(ns) + rest, off, mode)
         == RefItems(ns, off, mode) + Visit(rest, off + |SerAll(ns, mode)|, mode)
  {
    var ps := Wholes(ns) + rest;
    var n := ns[0];
    var len := |Ser(n, mode)|;
    var h := if n.Element? && (n.name == "item" || n.name == "entry") then [off] else [];
    WholesCons(ns, rest, mode);
    assert off + len + |SerAll(ns[1..], mode)| == off + |SerAll(ns, mode)|;
    FirstNodeVisit(ps, n, off, mode);
    RefOther(ns, off, mode);
    Glue(Visit(ps, off, mode), h, Visit(ps[1..], off + len, mode),
         RefItems(ns[1..], off + len, mode), Visit(rest, off + |SerAll(ns, mode)|, mode), RefItems(ns, off, mode));
  }

  /** `a == h + b`, `b == r + v` and `x == h + r` give `a == x + v`. */
  lemma Glue(a: seq<nat>, h: seq<nat>, b: seq<nat>, r: seq<nat>, v: seq<nat>, x: seq<nat>)
    requires a == h + b && b == r + v && x == h + r
    ensures a == x + v
  {
    assert h + (r + v) == (h + r) + v;
  }

  lemma FirstNodeVisit(ps: seq<Piece>, n: Node, off: nat, mode: EndAttrs)
    requires ps != [] && ps[0] == Whole(n) && !(n.Element? && n.name == "channel")
    ensures Visit(ps, off, mode)
         == (if n.Element? && (n.name == "item" || n.name == "entry") then [off] else [])
            + Visit(ps[1..], off + |Ser(n, mode)|, mode)
  {
    if n.TextNode? {
      VisitPass(ps, off, mode);
    } else if n.name == "item" || n.name == "entry" {
      VisitEntry(ps, off, mode);
    } else {
      VisitSkip(ps, off, mode);
      assert [] + Visit(ps[1..], off + |Ser(n, mode)|, mode) == Visit(ps[1..], off + |Ser(n, mode)|, mode);
    }
  }

  /** The step of `VisitIsRef` for a first node that is a channel. */
  lemma ChannelThenRest(ns: seq<Node>, rest: seq<Piece>, off: nat, mode: EndAttrs)
    requires ns != [] && ns[0].Element? && ns[0].name == "channel"
    requires var len := |Ser(ns[0], mode)|;
      Visit(Wholes(ns[1..]) + rest, off + len, mode)
      == RefItems(ns[1..], off + len, mode) + Visit(rest, off + len + |SerAll(ns[1..], mode)|, mode)
    requires Wholes(ns) + rest == [Whole(ns[0])] + (Wholes(ns[1..]) + rest)
    requires Visit([Whole(ns[0])] + (Wholes(ns[1..]) + rest), off, mode)
          == RefItems(ns[0].children, off + 1, mode)
             + Visit(Wholes(ns[1..]) + rest, off + |Ser(ns[0], mode)|, mode)
    ensures Visit(Wholes(ns) + rest, off, mode)
         == RefItems(ns, off, mode) + Visit(rest, off + |SerAll(ns, mode)|, mode)
  {
    var len := |Ser(ns[0], mode)|;
    WholesCons(ns, rest, mode);
    var e := off + |SerAll(ns, mode)|;
    assert off + len + |SerAll(ns[1..], mode)| == e;
    var h := RefItems(ns[0].children, off + 1, mode);
    var b := Visit(Wholes(ns[1..]) + rest, off + len, mode);
    var r := RefItems(ns[1..], off + len, mode);
    var v := Visit(rest, e, mode);
    assert b == r + v;
    assert Visit(Wholes(ns) + rest, off, mode) == h + b;
    RefChannel(ns, off, mode);
    Glue(Visit(Wholes(ns) + rest, off, mode), h, b, r, v, RefItems(ns, off, mode));
  }

  /** A channel with a harmless first child is walked as the expected walk searches it. */
  lemma {:induction false} ChannelStep(n: Node, after: seq<Piece>, off: nat, mode: EndAttrs)
    requires n.Element? && n.name == "channel"
    requires FirstChildHarmless(n.children) && NoGlitch(n.children, mode)
    ensures Visit([Whole(n)] + after, off, mode)
         == RefItems(n.children, off + 1, mode) + Visit(after, off + |Ser(n, mode)|, mode)
    decreases |Ser(n, mode)|, 1
  {
    var ch := n.children;
    var end := Loose(n.name, EndAttrsOf(n.attrs, ch, mode));
    var ps := [Whole(n)] + after;
    ConsPiece(Whole(n), after);
    VisitChannel(ps, off, mode);
    DropElement(n, after, mode);
    ElementSize(n, mode);
    if ch == [] {
      assert Wholes(ch) + ([end] + after) == [end] + after;
      ConsPiece(end, after);
      assert DropOne([end] + after, mode) == after;
    } else if ch[0].TextNode? {
      ChannelTextFirst(n, after, off, mode);
    } else {
      ChannelElementFirst(n, after, off, mode);
    }
  }

  lemma {:induction false} ChannelTextFirst(n: Node, after: seq<Piece>, off: nat, mode: EndAttrs)
    requires n.Element? && n.name == "channel" && n.children != [] && n.children[0].TextNode?
    requires NoGlitch(n.children, mode)
    ensures Visit(DropOne(DropOne([Whole(n)] + after, mode), mode), off + 2, mode)
         == RefItems(n.children, off + 1, mode) + Visit(after, off + |Ser(n, mode)|, mode)
    decreases |Ser(n, mode)|, 0
  {
    var ch := n.children;
    var tail := ch[1..];
    var end := Loose(n.name, EndAttrsOf(n.attrs, ch, mode));
    var x := Wholes(tail) + ([end] + after);
    DropElement(n, after, mode);
    DropWholeFirst(ch, [end] + after, mode);
    ConsPiece(Whole(ch[0]), x);
    assert DropOne([Whole(ch[0])] + x, mode) == x;
    WholesCons(ch, [], mode);
    ElementSize(n, mode);
    assert NoGlitch(tail, mode);
    var k := off + 2 + |SerAll(tail, mode)|;
    assert k + 1 == off + |Ser(n, mode)|;
    VisitIsRef(tail, [end] + after, off + 2, mode);
    ConsPiece(end, after);
    VisitPass([end] + after, k, mode);
    RefOther(ch, off + 1, mode);
    assert RefItems(ch, off + 1, mode) == RefItems(tail, off + 2, mode);
  }

  lemma {:induction false} ChannelElementFirst(n: Node, after: seq<Piece>, off: nat, mode: EndAttrs)
    requires n.Element? && n.name == "channel" && n.children != [] && n.children[0].Element?
    requires FirstChildHarmless(n.children) && NoGlitch(n.children, mode)
    ensures Visit(DropOne(DropOne([Whole(n)] + after, mode), mode), off + 2, mode)
         == RefItems(n.children, off + 1, mode) + Visit(after, off + |Ser(n, mode)|, mode)
    decreases |Ser(n, mode)|, 0
  {
    var ch := n.children;
    var g := ch[0];
    var tail := ch[1..];
    var end := Loose(n.name, EndAttrsOf(n.attrs, ch, mode));
    var x := Wholes(tail) + ([end] + after);
    DropElement(n, after, mode);
    DropWholeFirst(ch, [end] + after, mode);
    DropElement(g, x, mode);
    OpenedTextElement(g, x, off + 2, mode);
    var m := off + 1 + |Ser(g, mode)|;
    ElementSize(n, mode);
    WholesCons(ch, [], mode);
    assert NoGlitch(tail, mode);
    var k := m + |SerAll(tail, mode)|;
    assert k + 1 == off + |Ser(n, mode)|;
    VisitIsRef(tail, [end] + after, m, mode);
    ConsPiece(end, after);
    VisitPass([end] + after, k, mode);
    RefTextElementFirst(ch, off + 1, mode);
  }

  /** An element holding only text, once opened, is passed over up to its end tag. */
  lemma OpenedTextElement(g: Node, x: seq<Piece>, off: nat, mode: EndAttrs)
    requires g.Element? && forall i | 0 <= i < |g.children| :: g.children[i].TextNode?
    ensures Visit(Wholes(g.children) + ([Loose(g.name, EndAttrsOf(g.attrs, g.children, mode))] + x), off, mode)
         == Visit(x, off + |Ser(g, mode)| - 1, mode)
  {
    var endG := Loose(g.name, EndAttrsOf(g.attrs, g.children, mode));
    RefTexts(g.children, off, mode);
    ElementSize(g, mode);
    VisitTexts(g.children, [endG] + x, off, mode);
    ConsPiece(endG, x);
    VisitPass([endG] + x, off + |g.children|, mode);
  }

  /** The expected walk finds nothing in a first child that is not an entry and holds only text. */
  lemma RefTextElementFirst(ch: seq<Node>, off: nat, mode: EndAttrs)
    requires ch != [] && ch[0].Element? && FirstChildHarmless(ch)
    ensures RefItems(ch, off, mode) == RefItems(ch[1..], off + |Ser(ch[0], mode)|, mode)
  {
    if ch[0].name == "channel" {
      RefChannel(ch, off, mode);
      RefTexts(ch[0].children, off + 1, mode);
    } else {
      RefOther(ch, off, mode);
    }
  }

  /** Without the glitch, the walk below the root element is the expected walk. */
  lemma VisitDocument(root: Node, mode: EndAttrs)
    requires root.Element? && NoGlitch(root.children, mode)
    ensures Visit(DropOne([Whole(root)], mode), 1, mode) == RefItems(root.children, 1, mode)
  {
    var end := Loose(root.name, EndAttrsOf(root.attrs, root.children, mode));
    DropElement(root, [], mode);
    assert [Whole(root)] + [] == [Whole(root)];
    VisitIsRef(root.children, [end] + [], 1, mode);
    ConsPiece(end, []);
    VisitPass([end] + [], 1 + |SerAll(root.children, mode)|, mode);
    assert Visit([], 2 + |SerAll(root.children, mode)|, mode) == [];
  }

  /**
   * Without the glitch, `parse()` reads exactly the entries the expected walk
   * finds below the root element, in document order.
   */
  lemma ParseDocumentNoGlitch(f: Foreign, feedId: Int32, root: Node, mode: EndAttrs)
    requires root.Element? && NoGlitch(root.children, mode)
    ensures ParseFeed(f, feedId, Document(root, mode))
         == EntriesAt(f, feedId, Document(root, mode), RefItems(root.children, 1, mode))
  {
    ParseDocument(f, feedId, root, mode);
    VisitDocument(root, mode);
  }

  // ---------------------------------------------------------------------------
  // The glitch

  const NONE: map<string, string> := map[]

  /** `<rss><channel><item><title>T</title></item></channel></rss>`, written without white space. */
  function MinifiedRss(): Node {
    Element("rss", NONE, [Element("channel", NONE, [
      Element("item", NONE, [Element("title", NONE, [TextNode("T")])])])])
  }

  /**
   * The walk over the minified feed: the extra `next()` after `<channel>` lands on
   * `<item>`, so the loop then meets `<title>` as a stray element and skips it.
   */
  lemma MinifiedRssVisit(mode: EndAttrs)
    ensures Visit(DropOne([Whole(MinifiedRss())], mode), 1, mode) == []
    ensures RefItems(MinifiedRss().children, 1, mode) == [2]
  {
    var root := MinifiedRss();
    var channel := root.children[0];
    var item := channel.children[0];
    var endRss := Loose("rss", EndAttrsOf(NONE, root.children, mode));
    DropElement(root, [], mode);
    var ps0 := [Whole(channel)] + [endRss];
    assert DropOne([Whole(root)], mode) == ps0;
    VisitChannel(ps0, 1, mode);
    MinifiedAfterChannel(mode);
    RefChannel(root.children, 1, mode);
    RefOther(channel.children, 2, mode);
  }

  /** The pieces two events into the channel, and the walk over them. */
  lemma MinifiedAfterChannel(mode: EndAttrs)
    ensures var root := MinifiedRss();
      var ps0 := [Whole(root.children[0])] + [Loose("rss", EndAttrsOf(NONE, root.children, mode))];
      Visit(DropOne(DropOne(ps0, mode), mode), 3, mode) == []
  {
    var root := MinifiedRss();
    var channel := root.children[0];
    var item := channel.children[0];
    var title := item.children[0];
    var endRss := Loose("rss", EndAttrsOf(NONE, root.children, mode));
    var endChannel := Loose("channel", EndAttrsOf(NONE, channel.children, mode));
    var endItem := Loose("item", EndAttrsOf(NONE, item.children, mode));
    var ps0 := [Whole(channel)] + [endRss];
    DropElement(channel, [endRss], mode);
    var ps1 := [Whole(item)] + ([endChannel] + [endRss]);
    assert DropOne(ps0, mode) == ps1;
    DropElement(item, [endChannel] + [endRss], mode);
    var ends := [endItem] + ([endChannel] + [endRss]);
    assert DropOne(ps1, mode) == [Whole(title)] + ends;
    ConsPiece(Whole(title), ends);
    VisitSkip([Whole(title)] + ends, 3, mode);
    assert |Ser(title, mode)| == 3;
    LooseEnds(ends, 6, mode);
  }

  lemma {:induction false} LooseEnds(ps: seq<Piece>, off: nat, mode: EndAttrs)
    requires forall i | 0 <= i < |ps| :: ps[i].Loose?
    ensures Visit(ps, off, mode) == []
    decreases |ps|
  {
    if ps != [] {
      VisitPass(ps, off, mode);
      LooseEnds(ps[1..], off + 1, mode);
    }
  }

  /**
   * On the minified feed `parse()` returns no post at all, while the expected walk
   * finds the item at position 2.
   */
  lemma MinifiedRssLosesItem(f: Foreign, feedId: Int32, mode: EndAttrs)
    ensures ParseFeed(f, feedId, Document(MinifiedRss(), mode)) == Ok([])
    ensures RefItems(MinifiedRss().children, 1, mode) == [2]
  {
    ParseDocument(f, feedId, MinifiedRss(), mode);
    MinifiedRssVisit(mode);
  }
}
