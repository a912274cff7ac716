// What the older `readFeed` loop reads, stated for any event stream: the items whose
// start tags sit directly at the loop's own level, in document order, up to the first
// end tag at that level; nothing after that end tag is looked at.

module LegacyFeedLevel {
  import opened JavaLang
  import opened XmlPull
  import opened FeedCommon
  import opened LegacyParser

  /**
   * `e` is the first end tag that the loop, standing at `p`, meets at its own level:
   * every event in between is at least as deep as `p`, and `e` leaves that level.
   */
  predicate EndsLevel(evs: seq<Event>, p: nat, e: nat) {
    p < e < |evs| && evs[e].EndTag? && Open(evs, e) == Open(evs, p) - 1
    && (forall i | p <= i < e :: Open(evs, i) >= Open(evs, p))
    && Live(evs, p, e)
  }

  /** A start tag directly at level `level`: a child of the element the loop is in. */
  predicate ChildAt(evs: seq<Event>, c: nat, level: int)
    requires c < |evs|
  {
    evs[c].StartTag? && Open(evs, c) == level + 1
  }

  predicate IsItemTag(e: Event) {
    e.StartTag? && (e.name == "item" || e.name == "entry")
  }

  /** The positions in `lo .. e-1` of `item` and `entry` start tags directly at `level`, in order. */
  function LevelItems(evs: seq<Event>, lo: nat, e: nat, level: int): seq<nat>
    requires lo <= e <= |evs|
    decreases e - lo
  {
    if lo == e then []
    else if ChildAt(evs, lo, level) && IsItemTag(evs[lo]) then [lo] + LevelItems(evs, lo + 1, e, level)
    else LevelItems(evs, lo + 1, e, level)
  }

  /** `LevelItems` lists only item and entry start tags at the level, in increasing order. */
  lemma {:induction false} LevelItemsSound(evs: seq<Event>, lo: nat, e: nat, level: int)
    requires lo <= e <= |evs|
    ensures forall x | x in LevelItems(evs, lo, e, level) :: lo <= x < e && ChildAt(evs, x, level) && IsItemTag(evs[x])
    ensures forall k, l | 0 <= k < l < |LevelItems(evs, lo, e, level)| ::
              LevelItems(evs, lo, e, level)[k] < LevelItems(evs, lo, e, level)[l]
    decreases e - lo
  {
    if lo < e {
      LevelItemsSound(evs, lo + 1, e, level);
      var rest := LevelItems(evs, lo + 1, e, level);
      if ChildAt(evs, lo, level) && IsItemTag(evs[lo]) {
        var xs := [lo] + rest;
        assert LevelItems(evs, lo, e, level) == xs;
        forall k, l | 0 <= k < l < |xs|
          ensures xs[k] < xs[l]
        {
          assert xs[l] == rest[l - 1] && xs[l] in rest;
          if k > 0 {
            assert xs[k] == rest[k - 1];
          }
        }
      }
    }
  }

  /** Every item/entry position appears in `LevelItems`: nothing at the level is missed. */
  lemma {:induction false} LevelItemsComplete(evs: seq<Event>, lo: nat, e: nat, level: int, c: nat)
    requires lo <= c < e <= |evs| && ChildAt(evs, c, level) && IsItemTag(evs[c])
    ensures c in LevelItems(evs, lo, e, level)
    decreases e - lo
  {
    if lo < c {
      LevelItemsComplete(evs, lo + 1, e, level, c);
    }
  }

  /** `readEntry` at each position in turn; the first failure wins. */
  function ItemsAt(feedUrl: string, f: Foreign, evs: seq<Event>, xs: seq<nat>): Result<seq<Item>>
  {
    if xs == [] then Ok([])
    else if xs[0] >= |evs| then Err(XmlError)
    else
      var e :- EntryEnd(feedUrl, f, evs, xs[0]);
      Prepend([e.0], ItemsAt(feedUrl, f, evs, xs[1..]))
  }

  /**
   * The children at the loop's level between `p` and `e`: none is a `channel` (whose
   * extra `next()` is `ChannelThenLevel`'s business), and every item or entry has flat
   * children, which the older `readEntry` needs to end on the item's own end tag.
   */
  predicate PlainLevel(evs: seq<Event>, p: nat, e: nat)
    requires p <= e < |evs|
  {
    forall c {:trigger ChildAt(evs, c, Open(evs, p))} | p < c < e && ChildAt(evs, c, Open(evs, p)) ::
      evs[c].name != "channel" && (IsItemTag(evs[c]) ==> FlatItem(evs, c))
  }

  // ---------------------------------------------------------------------------
  // Helpers

  /** A start tag inside the level has a closing tag no later than where the level ends. */
  lemma {:induction false} CloseExists(evs: seq<Event>, a: nat, j: nat, e: nat)
    requires a <= j < e < |evs| && evs[a].StartTag? && Live(evs, a, e)
    requires forall i | a <= i <= j :: Open(evs, i) >= Open(evs, a)
    requires Open(evs, e) < Open(evs, a)
    ensures exists m :: j < m <= e && Closes(evs, a, m)
    decreases e - j
  {
    assert Open(evs, j + 1) == Open(evs, j) + Delta(evs[j + 1]);
    if Open(evs, j + 1) < Open(evs, a) {
      assert Closes(evs, a, j + 1);
    } else {
      CloseExists(evs, a, j + 1, e);
    }
  }

  /** A child's closing tag comes before the end of the level, and the level resumes there. */
  lemma ChildInside(evs: seq<Event>, p: nat, e: nat, m: nat)
    requires EndsLevel(evs, p, e) && p + 1 < e && Closes(evs, p + 1, m)
    requires Open(evs, p + 1) == Open(evs, p) + 1
    ensures m < e && EndsLevel(evs, m, e) && Open(evs, m) == Open(evs, p)
  {
  }

  /** No item starts directly at the level strictly inside a child `c .. m`. */
  lemma {:induction false} LevelItemsSkipChild(evs: seq<Event>, c: nat, lo: nat, m: nat, e: nat, level: int)
    requires c < lo <= m + 1 && m < e <= |evs| && Closes(evs, c, m) && Open(evs, c) == level + 1
    ensures LevelItems(evs, lo, e, level) == LevelItems(evs, m + 1, e, level)
    decreases m + 1 - lo
  {
    if lo <= m {
      assert Open(evs, lo) == Open(evs, lo - 1) + Delta(evs[lo]);
      assert !ChildAt(evs, lo, level);
      LevelItemsSkipChild(evs, c, lo + 1, m, e, level);
    }
  }

  /** A later position back at the same level still sees only plain children. */
  lemma PlainLevelFrom(evs: seq<Event>, p: nat, q: nat, e: nat)
    requires p <= q <= e < |evs| && PlainLevel(evs, p, e) && Open(evs, q) == Open(evs, p)
    ensures PlainLevel(evs, q, e)
  {
  }

  // The loop of `readFeed`, one step at a time.

  /** `next()` meets an end tag: the loop returns what it has. */
  lemma LoopEnds(feedUrl: string, f: Foreign, evs: seq<Event>, p: nat)
    requires p + 1 < |evs| && !evs[p].EndDoc? && evs[p + 1].EndTag?
    ensures FeedLoop(feedUrl, f, evs, p) == Ok([])
  {
  }

  /** Text and other non-tag events are passed over. */
  lemma LoopPasses(feedUrl: string, f: Foreign, evs: seq<Event>, p: nat)
    requires p + 1 < |evs| && !evs[p].EndDoc? && !IsTag(evs[p + 1])
    ensures FeedLoop(feedUrl, f, evs, p) == FeedLoop(feedUrl, f, evs, p + 1)
  {
  }

  /** Any other start tag is skipped to its end, and the loop goes on from there. */
  lemma LoopSkips(feedUrl: string, f: Foreign, evs: seq<Event>, p: nat, m: nat)
    requires p + 1 < |evs| && !evs[p].EndDoc? && evs[p + 1].StartTag?
    requires evs[p + 1].name != "channel" && !IsItemTag(evs[p + 1])
    requires SkipEnd(evs, p + 1) == Ok(m)
    ensures FeedLoop(feedUrl, f, evs, p) == FeedLoop(feedUrl, f, evs, m)
  {
  }

  /** `<channel>` costs one extra `next()`, whatever event that passes over. */
  lemma LoopChannel(feedUrl: string, f: Foreign, evs: seq<Event>, p: nat)
    requires p + 2 < |evs| && !evs[p].EndDoc? && evs[p + 1].StartTag? && evs[p + 1].name == "channel"
    ensures FeedLoop(feedUrl, f, evs, p) == FeedLoop(feedUrl, f, evs, p + 2)
  {
  }

  /** An `item` or `entry` is read by `readEntry`, its item put before the rest. */
  lemma LoopReads(feedUrl: string, f: Foreign, evs: seq<Event>, p: nat)
    requires p + 1 < |evs| && !evs[p].EndDoc? && IsItemTag(evs[p + 1])
    ensures EntryEnd(feedUrl, f, evs, p + 1).Err? ==>
              FeedLoop(feedUrl, f, evs, p) == Err(EntryEnd(feedUrl, f, evs, p + 1).error)
    ensures EntryEnd(feedUrl, f, evs, p + 1).Ok? ==>
              FeedLoop(feedUrl, f, evs, p)
              == Prepend([EntryEnd(feedUrl, f, evs, p + 1).value.0],
                         FeedLoop(feedUrl, f, evs, EntryEnd(feedUrl, f, evs, p + 1).value.1))
  {
  }

  /** `ItemsAt` on a list with a first position. */
  lemma ItemsAtCons(feedUrl: string, f: Foreign, evs: seq<Event>, q: nat, ys: seq<nat>)
    requires q < |evs|
    ensures EntryEnd(feedUrl, f, evs, q).Err? ==>
              ItemsAt(feedUrl, f, evs, [q] + ys) == Err(EntryEnd(feedUrl, f, evs, q).error)
    ensures EntryEnd(feedUrl, f, evs, q).Ok? ==>
              ItemsAt(feedUrl, f, evs, [q] + ys)
              == Prepend([EntryEnd(feedUrl, f, evs, q).value.0], ItemsAt(feedUrl, f, evs, ys))
  {
    var xs := [q] + ys;
    assert xs[0] == q && xs[1..] == ys;
  }

  // ---------------------------------------------------------------------------
  // The theorem

  /**
   * From `p`, the loop of the older `readFeed` returns exactly the items read at the
   * `item`/`entry` start tags directly at its level before `e`, the first end tag it
   * meets at that level, in document order (or the first failure among them); it
   * stops on `e`, so no item after `e` is read.
   */
  lemma {:induction false} FeedLoopLevel(feedUrl: string, f: Foreign, evs: seq<Event>, p: nat, e: nat)
    requires EndsLevel(evs, p, e) && PlainLevel(evs, p, e)
    ensures FeedLoop(feedUrl, f, evs, p) == ItemsAt(feedUrl, f, evs, LevelItems(evs, p + 1, e, Open(evs, p)))
    decreases e - p
  {
    var level := Open(evs, p);
    var q := p + 1;
    assert Open(evs, q) == level + Delta(evs[q]);
    if q == e {
      LoopEnds(feedUrl, f, evs, p);
    } else if !IsTag(evs[q]) {
      LoopPasses(feedUrl, f, evs, p);
      assert EndsLevel(evs, q, e);
      PlainLevelFrom(evs, p, q, e);
      FeedLoopLevel(feedUrl, f, evs, q, e);
    } else {
      assert evs[q].StartTag? && ChildAt(evs, q, level);
      CloseExists(evs, q, q, e);
      if IsItemTag(evs[q]) {
        LevelStepItem(feedUrl, f, evs, p, e);
      } else {
        var m :| q < m <= e && Closes(evs, q, m);
        SkipEndCloses(evs, q);
        LoopSkips(feedUrl, f, evs, p, m);
        ChildInside(evs, p, e, m);
        assert LevelItems(evs, q, e, level) == LevelItems(evs, q + 1, e, level);
        LevelItemsSkipChild(evs, q, q + 1, m, e, level);
        PlainLevelFrom(evs, p, m, e);
        FeedLoopLevel(feedUrl, f, evs, m, e);
      }
    }
  }

  /** The case of `FeedLoopLevel` where the loop meets an item or entry. */
  lemma {:induction false} LevelStepItem(feedUrl: string, f: Foreign, evs: seq<Event>, p: nat, e: nat)
    requires EndsLevel(evs, p, e) && PlainLevel(evs, p, e)
    requires p + 1 < e && IsItemTag(evs[p + 1]) && Open(evs, p + 1) == Open(evs, p) + 1
    ensures FeedLoop(feedUrl, f, evs, p) == ItemsAt(feedUrl, f, evs, LevelItems(evs, p + 1, e, Open(evs, p)))
    decreases e - p, 0
  {
    var level := Open(evs, p);
    var q := p + 1;
    assert ChildAt(evs, q, level);
    var rest := LevelItems(evs, q + 1, e, level);
    assert LevelItems(evs, q, e, level) == [q] + rest;
    LoopReads(feedUrl, f, evs, p);
    ItemsAtCons(feedUrl, f, evs, q, rest);
    var r := EntryEnd(feedUrl, f, evs, q);
    if r.Ok? {
      var m := r.value.1;
      EntryEndCloses(feedUrl, f, evs, q);
      ChildInside(evs, p, e, m);
      LevelItemsSkipChild(evs, q, q + 1, m, e, level);
      PlainLevelFrom(evs, p, m, e);
      FeedLoopLevel(feedUrl, f, evs, m, e);
    }
  }

  /**
   * At `<channel>` the loop makes one extra `next()` and carries on from the event
   * after it, at the channel's level. When that event is not a tag (the usual white
   * space), the end of that level is `</channel>`: the loop reads the channel's
   * items and stops there, whatever follows the channel.
   */
  lemma ChannelThenLevel(feedUrl: string, f: Foreign, evs: seq<Event>, p: nat, e: nat)
    requires p + 2 < |evs| && !evs[p].EndDoc? && evs[p + 1].StartTag? && evs[p + 1].name == "channel"
    requires EndsLevel(evs, p + 2, e) && PlainLevel(evs, p + 2, e)
    ensures FeedLoop(feedUrl, f, evs, p)
            == ItemsAt(feedUrl, f, evs, LevelItems(evs, p + 3, e, Open(evs, p + 2)))
    ensures !IsTag(evs[p + 2]) ==> Closes(evs, p + 1, e)
  {
    LoopChannel(feedUrl, f, evs, p);
    FeedLoopLevel(feedUrl, f, evs, p + 2, e);
    assert Open(evs, p + 2) == Open(evs, p + 1) + Delta(evs[p + 2]);
  }

  /**
   * A whole document whose root's children are plain: `parse()` returns one item
   * per `item`/`entry` child of the root, in order, ending at the root's end tag.
   */
  lemma ParseFeedLevel(feedUrl: string, f: Foreign, evs: seq<Event>, e: nat)
    requires |evs| > 0 && evs[0].StartTag? && Closes(evs, 0, e) && PlainLevel(evs, 0, e)
    ensures ParseFeed(feedUrl, f, evs) == ItemsAt(feedUrl, f, evs, LevelItems(evs, 1, e, Open(evs, 0)))
  {
    assert TagFrom(evs, 0) == Ok(0);
    FeedLoopLevel(feedUrl, f, evs, 0, e);
  }
}
