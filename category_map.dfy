// The category map of the OPML exporter and of the feed list: a `SortedMap` from a
// category to its feeds whose keys compare by their lower-cased form
// (`sortedMapOf(compareBy { it.toLowerCase() })` in
// app/src/main/java/com/alex/arse/OPMLParser.kt and FeedListFragment.kt).
// Feeds are added one at a time: to the list already under an equal key, or
// under their own category as a new key.

module CategoryMap {
  import opened JavaLang
  import opened StoreData
  import opened Rows

  /** One entry of the map: the key as it was first put, and the list stored under it. */
  datatype Group = Group(key: string, feeds: seq<Feed>)

  /** The keys ascend strictly in the map's comparator, so no two keys compare equal. */
  ghost predicate KeysAscending(gs: seq<Group>) {
    forall i, j | 0 <= i < j < |gs| :: LexLess(ToLower(gs[i].key), ToLower(gs[j].key))
  }

  /** `containsKey(k)`: the position of the key comparing equal to `k`, if any. */
  function FindKey(gs: seq<Group>, k: string): (r: Option<nat>)
    ensures r.Some? ==> r.value < |gs| && ToLower(gs[r.value].key) == ToLower(k)
    ensures r.None? ==> forall i | 0 <= i < |gs| :: ToLower(gs[i].key) != ToLower(k)
  {
    if gs == [] then None
    else if ToLower(gs[0].key) == ToLower(k) then Some(0)
    else
      match FindKey(gs[1..], k)
      case Some(i) => Some(i + 1)
      case None => None
  }

  /** Where `put` places a new key: after every key that does not compare above it. */
  function Slot(gs: seq<Group>, k: string): (r: nat)
    ensures r <= |gs|
    ensures forall i | 0 <= i < r :: !LexLess(ToLower(k), ToLower(gs[i].key))
    ensures r < |gs| ==> LexLess(ToLower(k), ToLower(gs[r].key))
  {
    if gs == [] || LexLess(ToLower(k), ToLower(gs[0].key)) then 0
    else 1 + Slot(gs[1..], k)
  }

  /** `put(k, v)` of a key not yet present: the entry goes where the comparator places it. */
  function Put(gs: seq<Group>, g: Group): seq<Group> {
    var m := Slot(gs, g.key);
    gs[..m] + [g] + gs[m..]
  }

  lemma PutAt(gs: seq<Group>, g: Group, j: nat)
    requires j <= |gs|
    ensures |Put(gs, g)| == |gs| + 1
    ensures Put(gs, g)[j] == if j < Slot(gs, g.key) then gs[j] else if j == Slot(gs, g.key) then g else gs[j - 1]
  {
  }

  /**
   * One turn of the filling loop: `getValue(feed.category).add(feed)` when
   * `containsKey(feed.category)`, else `put(feed.category, mutableListOf(feed))`.
   */
  function AddFeed(gs: seq<Group>, f: Feed): seq<Group> {
    match FindKey(gs, f.category)
    case Some(i) => gs[i := gs[i].(feeds := gs[i].feeds + [f])]
    case None => Put(gs, Group(f.category, [f]))
  }

  /** The map filled from `feeds` in order, starting empty. */
  function Grouped(feeds: seq<Feed>): seq<Group> {
    if feeds == [] then [] else AddFeed(Grouped(feeds[..|feeds| - 1]), feeds[|feeds| - 1])
  }

  function InCategory(c: string): Feed -> bool {
    (x: Feed) => ToLower(x.category) == ToLower(c)
  }

  // ---------------------------------------------------------------------------
  // Properties

  lemma LexLessFacts()
    ensures forall a: string :: !LexLess(a, a)
    ensures forall a: string, b: string :: a != b ==> LexLess(a, b) || LexLess(b, a)
    ensures forall a: string, b: string, c: string :: LexLess(a, b) && LexLess(b, c) ==> LexLess(a, c)
  {
    forall a: string
      ensures !LexLess(a, a)
    {
      LexLessIrreflexive(a);
    }
    forall a: string, b: string | a != b
      ensures LexLess(a, b) || LexLess(b, a)
    {
      LexLessTotal(a, b);
    }
    forall a: string, b: string, c: string | LexLess(a, b) && LexLess(b, c)
      ensures LexLess(a, c)
    {
      LexLessTransitive(a, b, c);
    }
  }

  /** Putting a key that compares unequal to every present key keeps the keys ascending. */
  lemma PutAscending(gs: seq<Group>, g: Group)
    requires KeysAscending(gs)
    requires forall i | 0 <= i < |gs| :: ToLower(gs[i].key) != ToLower(g.key)
    ensures KeysAscending(Put(gs, g))
  {
    var m := Slot(gs, g.key);
    var r := Put(gs, g);
    var k := ToLower(g.key);
    forall i, j | 0 <= i < j < |r|
      ensures LexLess(ToLower(r[i].key), ToLower(r[j].key))
    {
      PutAt(gs, g, i);
      PutAt(gs, g, j);
      if j == m {
        LexLessTotal(ToLower(gs[i].key), k);
      } else if i == m && j - 1 > m {
        LexLessTransitive(k, ToLower(gs[m].key), ToLower(gs[j - 1].key));
      }
    }
  }

  /**
   * What one added feed does to a map with ascending keys: it joins the group under
   * the equal key, or it is put as a new group; the keys stay ascending.
   */
  lemma AddFeedShape(gs: seq<Group>, f: Feed)
    requires KeysAscending(gs)
    ensures KeysAscending(AddFeed(gs, f))
    ensures var r := AddFeed(gs, f);
            match FindKey(gs, f.category)
            case Some(i) => r == gs[i := gs[i].(feeds := gs[i].feeds + [f])]
            case None => r == Put(gs, Group(f.category, [f]))
  {
    if FindKey(gs, f.category).None? {
      PutAscending(gs, Group(f.category, [f]));
    }
  }

  /**
   * The map holds the feeds faithfully: keys ascend; each group holds, in input
   * order, the feeds whose category compares equal to its key; its key is the
   * category of the first of them; and every feed has its group.
   */
  ghost predicate Faithful(gs: seq<Group>, feeds: seq<Feed>) {
    KeysAscending(gs) && Holds(gs, feeds) && Named(gs) && Covers(gs, feeds)
  }

  ghost predicate Holds(gs: seq<Group>, feeds: seq<Feed>) {
    forall i | 0 <= i < |gs| :: gs[i].feeds == Where(feeds, InCategory(gs[i].key))
  }

  ghost predicate Named(gs: seq<Group>) {
    forall i | 0 <= i < |gs| :: gs[i].feeds != [] && gs[i].key == gs[i].feeds[0].category
  }

  ghost predicate Covers(gs: seq<Group>, feeds: seq<Feed>) {
    forall k | 0 <= k < |feeds| :: FindKey(gs, feeds[k].category).Some?
  }

  lemma AddFeedFaithful(gs: seq<Group>, feeds: seq<Feed>, f: Feed)
    requires Faithful(gs, feeds)
    ensures Faithful(AddFeed(gs, f), feeds + [f])
  {
    AddFeedShape(gs, f);
    match FindKey(gs, f.category)
    case Some(i) => JoinFaithful(gs, feeds, f, i);
    case None => PutFaithful(gs, feeds, f);
  }

  /** A group of the map after one more feed: the feed is appended when its category matches. */
  lemma GroupAfterSnoc(feeds: seq<Feed>, f: Feed, g: Group)
    requires g.feeds == Where(feeds, InCategory(g.key))
    ensures ToLower(f.category) != ToLower(g.key) ==> g.feeds == Where(feeds + [f], InCategory(g.key))
    ensures ToLower(f.category) == ToLower(g.key) ==> g.feeds + [f] == Where(feeds + [f], InCategory(g.key))
  {
    WhereSnoc(feeds, f, InCategory(g.key));
  }

  /** The feed joins the group under the key its category compares equal to. */
  lemma JoinFaithful(gs: seq<Group>, feeds: seq<Feed>, f: Feed, i: nat)
    requires Faithful(gs, feeds)
    requires i < |gs| && ToLower(gs[i].key) == ToLower(f.category)
    ensures Faithful(gs[i := gs[i].(feeds := gs[i].feeds + [f])], feeds + [f])
  {
    var r := gs[i := gs[i].(feeds := gs[i].feeds + [f])];
    assert KeysAscending(r);
    JoinHolds(gs, feeds, f, i);
    JoinCovers(gs, feeds, f, i);
  }

  lemma JoinHolds(gs: seq<Group>, feeds: seq<Feed>, f: Feed, i: nat)
    requires KeysAscending(gs) && Holds(gs, feeds) && Named(gs)
    requires i < |gs| && ToLower(gs[i].key) == ToLower(f.category)
    ensures Holds(gs[i := gs[i].(feeds := gs[i].feeds + [f])], feeds + [f])
    ensures Named(gs[i := gs[i].(feeds := gs[i].feeds + [f])])
  {
    var r := gs[i := gs[i].(feeds := gs[i].feeds + [f])];
    forall j | 0 <= j < |r|
      ensures r[j].feeds == Where(feeds + [f], InCategory(r[j].key))
      ensures r[j].feeds != [] && r[j].key == r[j].feeds[0].category
    {
      GroupAfterSnoc(feeds, f, gs[j]);
      if j != i {
        assert ToLower(gs[j].key) != ToLower(gs[i].key) by {
          LexLessIrreflexive(ToLower(gs[i].key));
        }
      } else {
        assert (gs[i].feeds + [f])[0] == gs[i].feeds[0];
      }
    }
  }

  lemma JoinCovers(gs: seq<Group>, feeds: seq<Feed>, f: Feed, i: nat)
    requires Covers(gs, feeds)
    requires i < |gs| && ToLower(gs[i].key) == ToLower(f.category)
    ensures Covers(gs[i := gs[i].(feeds := gs[i].feeds + [f])], feeds + [f])
  {
    var r := gs[i := gs[i].(feeds := gs[i].feeds + [f])];
    var all := feeds + [f];
    forall k | 0 <= k < |all|
      ensures FindKey(r, all[k].category).Some?
    {
      if k < |feeds| {
        var i' := FindKey(gs, feeds[k].category).value;
        FindKeyFinds(r, i', all[k].category);
      } else {
        FindKeyFinds(r, i, f.category);
      }
    }
  }

  /** A feed whose category matches no key: no earlier feed had that category. */
  lemma NoEarlierFeed(gs: seq<Group>, feeds: seq<Feed>, f: Feed)
    requires Faithful(gs, feeds) && FindKey(gs, f.category).None?
    ensures Where(feeds, InCategory(f.category)) == []
  {
    forall k | 0 <= k < |feeds|
      ensures !InCategory(f.category)(feeds[k])
    {
      var i' := FindKey(gs, feeds[k].category).value;
      assert ToLower(gs[i'].key) != ToLower(f.category);
    }
    WhereNone(feeds, InCategory(f.category));
  }

  /** The feed is put under its own category as a new key. */
  lemma PutFaithful(gs: seq<Group>, feeds: seq<Feed>, f: Feed)
    requires Faithful(gs, feeds) && FindKey(gs, f.category).None?
    ensures Faithful(Put(gs, Group(f.category, [f])), feeds + [f])
  {
    PutAscending(gs, Group(f.category, [f]));
    NoEarlierFeed(gs, feeds, f);
    PutHolds(gs, feeds, f);
    PutCovers(gs, feeds, f);
  }

  lemma PutHolds(gs: seq<Group>, feeds: seq<Feed>, f: Feed)
    requires Holds(gs, feeds) && Named(gs) && FindKey(gs, f.category).None?
    requires Where(feeds, InCategory(f.category)) == []
    ensures Holds(Put(gs, Group(f.category, [f])), feeds + [f])
    ensures Named(Put(gs, Group(f.category, [f])))
  {
    var g := Group(f.category, [f]);
    var r := Put(gs, g);
    var all := feeds + [f];
    var m := Slot(gs, f.category);
    assert g.feeds == Where(all, InCategory(g.key)) by {
      WhereSnoc(feeds, f, InCategory(f.category));
      assert [] + [f] == [f];
    }
    forall j | 0 <= j < |r|
      ensures r[j].feeds == Where(all, InCategory(r[j].key))
      ensures r[j].feeds != [] && r[j].key == r[j].feeds[0].category
    {
      PutAt(gs, g, j);
      if j < m {
        GroupAfterSnoc(feeds, f, gs[j]);
      } else if j > m {
        GroupAfterSnoc(feeds, f, gs[j - 1]);
      }
    }
  }

  lemma PutCovers(gs: seq<Group>, feeds: seq<Feed>, f: Feed)
    requires Covers(gs, feeds)
    ensures Covers(Put(gs, Group(f.category, [f])), feeds + [f])
  {
    var r := Put(gs, Group(f.category, [f]));
    var all := feeds + [f];
    var m := Slot(gs, f.category);
    forall k | 0 <= k < |all|
      ensures FindKey(r, all[k].category).Some?
    {
      if k < |feeds| {
        var i' := FindKey(gs, feeds[k].category).value;
        var j := if i' < m then i' else i' + 1;
        PutAt(gs, Group(f.category, [f]), j);
        FindKeyFinds(r, j, all[k].category);
      } else {
        FindKeyFinds(r, m, f.category);
      }
    }
  }

  lemma FindKeyFinds(gs: seq<Group>, i: nat, k: string)
    requires i < |gs| && ToLower(gs[i].key) == ToLower(k)
    ensures FindKey(gs, k).Some?
  {
  }

  /** Filling the map from a list holds that list faithfully. */
  lemma {:induction false} GroupedFaithful(feeds: seq<Feed>)
    ensures Faithful(Grouped(feeds), feeds)
  {
    if feeds != [] {
      var init, x := feeds[..|feeds| - 1], feeds[|feeds| - 1];
      assert feeds == init + [x];
      assert Grouped(feeds) == AddFeed(Grouped(init), x);
      GroupedFaithful(init);
      AddFeedFaithful(Grouped(init), init, x);
    }
  }

  /** A feed is in a group exactly when its category compares equal to the group's key. */
  lemma GroupMembers(gs: seq<Group>, feeds: seq<Feed>, i: nat, x: Feed)
    requires Faithful(gs, feeds) && i < |gs|
    ensures x in gs[i].feeds <==> x in feeds && ToLower(x.category) == ToLower(gs[i].key)
  {
  }

  /** Ascending keys are pairwise unequal in the comparator. */
  lemma KeysDistinct(gs: seq<Group>)
    requires KeysAscending(gs)
    ensures forall i, j | 0 <= i < |gs| && 0 <= j < |gs| && i != j :: ToLower(gs[i].key) != ToLower(gs[j].key)
  {
    forall i, j | 0 <= i < |gs| && 0 <= j < |gs| && i != j
      ensures ToLower(gs[i].key) != ToLower(gs[j].key)
    {
      if i < j {
        LexLessIrreflexive(ToLower(gs[i].key));
      } else {
        LexLessIrreflexive(ToLower(gs[j].key));
      }
    }
  }

  /** Every feed of the list is in exactly one group. */
  lemma OneGroupPerFeed(gs: seq<Group>, feeds: seq<Feed>, x: Feed)
    requires Faithful(gs, feeds) && x in feeds
    ensures exists i | 0 <= i < |gs| :: x in gs[i].feeds
    ensures forall i, j | 0 <= i < |gs| && 0 <= j < |gs| && x in gs[i].feeds && x in gs[j].feeds :: i == j
  {
    KeysDistinct(gs);
    var k :| 0 <= k < |feeds| && feeds[k] == x;
    var i := FindKey(gs, x.category).value;
    GroupMembers(gs, feeds, i, x);
    forall i, j | 0 <= i < |gs| && 0 <= j < |gs| && x in gs[i].feeds && x in gs[j].feeds
      ensures i == j
    {
      GroupMembers(gs, feeds, i, x);
      GroupMembers(gs, feeds, j, x);
    }
  }

  /** A group holds the feeds of its category in list order, and its key is the first one's spelling. */
  lemma KeyIsFirstSpelling(feeds: seq<Feed>, i: nat)
    requires i < |Grouped(feeds)|
    ensures var g := Grouped(feeds)[i];
            g.feeds != [] && g.feeds == Where(feeds, InCategory(g.key)) && g.key == g.feeds[0].category
  {
    GroupedFaithful(feeds);
  }

  function Total(gs: seq<Group>): nat {
    if gs == [] then 0 else |gs[0].feeds| + Total(gs[1..])
  }

  lemma {:induction false} TotalConcat(a: seq<Group>, b: seq<Group>)
    ensures Total(a + b) == Total(a) + Total(b)
  {
    if a == [] {
      assert a + b == b;
    } else {
      assert (a + b)[1..] == a[1..] + b;
      TotalConcat(a[1..], b);
    }
  }

  lemma AddFeedTotal(gs: seq<Group>, f: Feed)
    ensures Total(AddFeed(gs, f)) == Total(gs) + 1
  {
    match FindKey(gs, f.category)
    case Some(i) =>
      var r := AddFeed(gs, f);
      assert gs == gs[..i] + [gs[i]] + gs[i + 1..];
      assert r == gs[..i] + [r[i]] + gs[i + 1..];
      TotalConcat(gs[..i] + [gs[i]], gs[i + 1..]);
      TotalConcat(gs[..i], [gs[i]]);
      TotalConcat(gs[..i] + [r[i]], gs[i + 1..]);
      TotalConcat(gs[..i], [r[i]]);
    case None =>
      var m := Slot(gs, f.category);
      assert gs == gs[..m] + gs[m..];
      TotalConcat(gs[..m], gs[m..]);
      TotalConcat(gs[..m] + [Group(f.category, [f])], gs[m..]);
      TotalConcat(gs[..m], [Group(f.category, [f])]);
  }

  /** The groups together hold as many feeds as the list. */
  lemma {:induction false} GroupedTotal(feeds: seq<Feed>)
    ensures Total(Grouped(feeds)) == |feeds|
  {
    if feeds != [] {
      GroupedTotal(feeds[..|feeds| - 1]);
      AddFeedTotal(Grouped(feeds[..|feeds| - 1]), feeds[|feeds| - 1]);
    }
  }

  // ---------------------------------------------------------------------------
  // The map object

  class FeedCategoryMap {
    var groups: seq<Group>

    ghost predicate Valid()
      reads this
    {
      KeysAscending(groups)
    }

    constructor()
      ensures groups == [] && Valid()
    {
      groups := [];
    }

    /** `clear()`. */
    method Clear()
      modifies this
      ensures groups == [] && Valid()
    {
      groups := [];
    }

    /** One turn of the filling loop, as in AddFeed. */
    method Add(f: Feed)
      modifies this
      requires Valid()
      ensures Valid() && groups == AddFeed(old(groups), f)
    {
      AddFeedShape(groups, f);
      var found := FindKey(groups, f.category);
      if found.Some? {
        var i := found.value;
        groups := groups[i := groups[i].(feeds := groups[i].feeds + [f])];
      } else {
        groups := Put(groups, Group(f.category, [f]));
      }
    }

    /** The filling loop: every feed of the list added in order. */
    method AddAll(feeds: seq<Feed>)
      modifies this
      requires Valid() && groups == []
      ensures Valid() && groups == Grouped(feeds)
    {
      var i := 0;
      while i < |feeds|
        invariant 0 <= i <= |feeds|
        invariant Valid() && groups == Grouped(feeds[..i])
      {
        assert feeds[..i + 1][..i] == feeds[..i];
        Add(feeds[i]);
        i := i + 1;
      }
      assert feeds[..i] == feeds;
    }
  }

  /** `getMapFromFeeds(feeds)`: a new map filled from the list. */
  method GetMapFromFeeds(feeds: seq<Feed>) returns (m: FeedCategoryMap)
    ensures fresh(m) && m.Valid() && m.groups == Grouped(feeds)
  {
    m := new FeedCategoryMap();
    m.AddAll(feeds);
  }
}
