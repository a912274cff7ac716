// The feed list screen's category view: the observer of the feed list rebuilds the
// case-insensitive category map and sorts every group by lower-cased name, and a
// tap on a category opens all of its feeds at once.

module FeedList {
  import opened JavaLang
  import opened StoreData
  import opened Rows
  import opened CategoryMap
  import FeedDao

  /** The sort key of the group lists: `feed.name.toLowerCase()`. */
  function LowerName(f: Feed): string { ToLower(f.name) }

  /** A group after `sortWith(compareBy { it.name.toLowerCase() })`, which is stable. */
  function SortGroup(g: Group): Group {
    g.(feeds := Sort(g.feeds, LowerName, FeedDao.NameLe()))
  }

  /** Every group sorted, the keys and their order untouched. */
  function SortGroups(gs: seq<Group>): (r: seq<Group>)
    ensures |r| == |gs|
    ensures forall i | 0 <= i < |gs| :: r[i] == SortGroup(gs[i])
  {
    seq(|gs|, i requires 0 <= i < |gs| => SortGroup(gs[i]))
  }

  /** What the view shows for the feed list `feeds`: the map rebuilt from nothing, each group sorted. */
  function ViewGroups(feeds: seq<Feed>): seq<Group> {
    SortGroups(Grouped(feeds))
  }

  /**
   * A sorted group holds the same feeds as before, ordered by lower-cased name, and
   * feeds whose lower-cased names are equal keep their order.
   */
  lemma SortGroupFacts(g: Group)
    ensures SortGroup(g).key == g.key
    ensures multiset(SortGroup(g).feeds) == multiset(g.feeds)
    ensures Sorted(SortGroup(g).feeds, LowerName, FeedDao.NameLe())
    ensures forall n :: KeyFilter(SortGroup(g).feeds, LowerName, n) == KeyFilter(g.feeds, LowerName, n)
  {
    FeedDao.NameLeTotal();
    SortPermutes(g.feeds, LowerName, FeedDao.NameLe());
    SortSorted(g.feeds, LowerName, FeedDao.NameLe());
    forall n
      ensures KeyFilter(SortGroup(g).feeds, LowerName, n) == KeyFilter(g.feeds, LowerName, n)
    {
      SortStable(g.feeds, LowerName, FeedDao.NameLe(), n);
    }
  }

  /** Sorting the groups keeps the keys, hence their case-insensitive order. */
  lemma SortGroupsKeys(gs: seq<Group>)
    requires KeysAscending(gs)
    ensures KeysAscending(SortGroups(gs))
  {
  }

  /**
   * The view's groups: keys in case-insensitive order, one per category up to case;
   * group `i` holds, sorted by lower-cased name, exactly the feeds of that category,
   * and feeds with the same lower-cased name in list order.
   */
  lemma {:induction false} ViewGroupsFaithful(feeds: seq<Feed>, i: nat)
    requires i < |ViewGroups(feeds)|
    ensures KeysAscending(ViewGroups(feeds))
    ensures var g := ViewGroups(feeds)[i];
            && multiset(g.feeds) == multiset(Where(feeds, InCategory(g.key)))
            && Sorted(g.feeds, LowerName, FeedDao.NameLe())
            && forall n :: KeyFilter(g.feeds, LowerName, n) == KeyFilter(Where(feeds, InCategory(g.key)), LowerName, n)
  {
    var gs := Grouped(feeds);
    GroupedFaithful(feeds);
    SortGroupsKeys(gs);
    SortGroupFacts(gs[i]);
  }

  /** Sorting a group neither adds nor drops a feed. */
  lemma SortGroupMembers(g: Group, x: Feed)
    ensures x in SortGroup(g).feeds <==> x in g.feeds
  {
    SortPermutes(g.feeds, LowerName, FeedDao.NameLe());
    assert x in SortGroup(g).feeds <==> x in multiset(SortGroup(g).feeds);
  }

  /** A feed is shown in group `i` exactly when it is listed and its category is the key up to case. */
  lemma ViewGroupMembers(feeds: seq<Feed>, i: nat, x: Feed)
    requires i < |ViewGroups(feeds)|
    ensures x in ViewGroups(feeds)[i].feeds <==> x in feeds && ToLower(x.category) == ToLower(ViewGroups(feeds)[i].key)
  {
    GroupedFaithful(feeds);
    SortedMembers(Grouped(feeds), feeds, i, x);
  }

  lemma SortedMembers(gs: seq<Group>, feeds: seq<Feed>, i: nat, x: Feed)
    requires Faithful(gs, feeds) && i < |gs|
    ensures x in SortGroups(gs)[i].feeds <==> x in feeds && ToLower(x.category) == ToLower(SortGroups(gs)[i].key)
  {
    SortGroupMembers(gs[i], x);
    GroupMembers(gs, feeds, i, x);
  }

  /** Every listed feed is shown in exactly one group. */
  lemma ViewOneGroupPerFeed(feeds: seq<Feed>, x: Feed)
    requires x in feeds
    ensures exists i | 0 <= i < |ViewGroups(feeds)| :: x in ViewGroups(feeds)[i].feeds
    ensures forall i, j | 0 <= i < |ViewGroups(feeds)| && 0 <= j < |ViewGroups(feeds)|
                          && x in ViewGroups(feeds)[i].feeds && x in ViewGroups(feeds)[j].feeds :: i == j
  {
    var gs := Grouped(feeds);
    var k := HomeGroup(feeds, x, gs);
    SortedOneGroup(gs, x, k, ViewGroups(feeds));
  }

  /** The one group of the unsorted map that holds a listed feed. */
  lemma HomeGroup(feeds: seq<Feed>, x: Feed, gs: seq<Group>) returns (k: nat)
    requires x in feeds && gs == Grouped(feeds)
    ensures k < |gs| && x in gs[k].feeds
    ensures forall i, j | 0 <= i < |gs| && 0 <= j < |gs| && x in gs[i].feeds && x in gs[j].feeds :: i == j
  {
    GroupedFaithful(feeds);
    OneGroupPerFeed(gs, feeds, x);
    k :| 0 <= k < |gs| && x in gs[k].feeds;
  }

  /** Sorting the groups keeps a feed in the one group it was in. */
  lemma SortedOneGroup(gs: seq<Group>, x: Feed, k: nat, vs: seq<Group>)
    requires k < |gs| && x in gs[k].feeds
    requires forall i, j | 0 <= i < |gs| && 0 <= j < |gs| && x in gs[i].feeds && x in gs[j].feeds :: i == j
    requires vs == SortGroups(gs)
    ensures exists i | 0 <= i < |vs| :: x in vs[i].feeds
    ensures forall i, j | 0 <= i < |vs| && 0 <= j < |vs| && x in vs[i].feeds && x in vs[j].feeds :: i == j
  {
    SortGroupMembers(gs[k], x);
    assert x in vs[k].feeds;
    forall i, j | 0 <= i < |vs| && 0 <= j < |vs| && x in vs[i].feeds && x in vs[j].feeds
      ensures i == j
    {
      SortGroupMembers(gs[i], x);
      SortGroupMembers(gs[j], x);
    }
  }

  lemma {:induction false} SortGroupsTotal(gs: seq<Group>)
    ensures Total(SortGroups(gs)) == Total(gs)
    decreases |gs|
  {
    if gs != [] {
      assert SortGroups(gs)[1..] == SortGroups(gs[1..]);
      SortGroupsTotal(gs[1..]);
    }
  }

  /** The groups together show as many feeds as the list has. */
  lemma ViewGroupsTotal(feeds: seq<Feed>)
    ensures Total(ViewGroups(feeds)) == |feeds|
  {
    SortGroupsTotal(Grouped(feeds));
    GroupedTotal(feeds);
  }

  /** The sorting loop: `for (key in keys) map[key]!!.sortWith(...)`. */
  method SortEach(m: FeedCategoryMap)
    modifies m
    requires m.Valid()
    ensures m.Valid() && m.groups == SortGroups(old(m.groups))
  {
    ghost var before := m.groups;
    var i := 0;
    while i < |m.groups|
      invariant 0 <= i <= |m.groups| == |before|
      invariant forall k | 0 <= k < i :: m.groups[k] == SortGroup(before[k])
      invariant forall k | i <= k < |m.groups| :: m.groups[k] == before[k]
    {
      m.groups := m.groups[i := SortGroup(m.groups[i])];
      i := i + 1;
    }
    assert m.groups == SortGroups(before);
    SortGroupsKeys(before);
  }

  /** The part of `FeedListFragment` that holds the category map. */
  class FeedListView {
    const categories: FeedCategoryMap

    ghost predicate Valid()
      reads this, categories
    {
      categories.Valid()
    }

    constructor()
      ensures fresh(categories) && Valid() && categories.groups == []
    {
      categories := new FeedCategoryMap();
    }

    /** The `allFeeds` observer: clear the map, file every feed, sort every group. */
    method OnFeeds(feeds: seq<Feed>)
      modifies categories
      requires Valid()
      ensures Valid() && categories.groups == ViewGroups(feeds)
    {
      categories.Clear();
      categories.AddAll(feeds);
      SortEach(categories);
    }

    /**
     * `openMultiFeed(groupPosition)`: the ids and urls of the group's feeds, index by
     * index from the same feed.  A position outside the groups throws, here `ok == false`.
     */
    method OpenMultiFeed(groupPosition: int) returns (ok: bool, feedIds: array<Int32>, feedUrls: array<string>)
      requires Valid()
      ensures ok <==> 0 <= groupPosition < |categories.groups|
      ensures ok ==> var g := categories.groups[groupPosition];
                     && feedIds.Length == |g.feeds| && feedUrls.Length == |g.feeds|
                     && (forall i | 0 <= i < |g.feeds| :: feedIds[i] == g.feeds[i].id && feedUrls[i] == g.feeds[i].url)
      ensures fresh(feedIds) && fresh(feedUrls)
    {
      if !(0 <= groupPosition < |categories.groups|) {
        ok := false;
        feedIds := new Int32[0];
        feedUrls := new string[0];
        return;
      }
      ok := true;
      var feeds := categories.groups[groupPosition].feeds;
      feedIds := new Int32[|feeds|];
      feedUrls := new string[|feeds|](_ => "");
      var i := 0;
      while i < |feeds|
        invariant 0 <= i <= |feeds|
        invariant forall k | 0 <= k < i :: feedIds[k] == feeds[k].id && feedUrls[k] == feeds[k].url
      {
        feedIds[i] := feeds[i].id;
        feedUrls[i] := feeds[i].url;
        i := i + 1;
      }
    }
  }
}
