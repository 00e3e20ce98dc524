/**
 * The room screen's total (RoomScreen.js, and the dock of page.js, which
 * computes the same reduce): in the "my tab" view it sums the current
 * user's lines, in any other view every line of the room.
 */
module RoomScreen {
  import opened Wrappers
  import opened StableSort
  import opened Items
  import opened RankingView

  /** `VIEW_MODES.MY_TAB`: the current user's own tab. */
  const MY_TAB: string := "minha"
  /** `VIEW_MODES.RANKING`: the ranking of the whole room. */
  const RANKING: string := "ranking"

  /** The view-dependent `items.reduce(...)`, as the left fold it is. */
  function ViewTotal(items: seq<Item>, view: string, me: string): (r: real)
    ensures items == [] ==> r == 0.0
    ensures (forall k :: 0 <= k < |items| ==> LineTotal(items[k]) >= 0.0) ==> r >= 0.0
  {
    if items == [] then 0.0
    else
      var acc := ViewTotal(items[..|items| - 1], view, me);
      var curr := items[|items| - 1];
      if view == MY_TAB then (if curr.userId == me then acc + LineTotal(curr) else acc)
      else acc + LineTotal(curr)
  }

  /** In the "my tab" view the total is the sum over the user's own items. */
  lemma {:induction false} MyTabTotal(items: seq<Item>, me: string)
    ensures ViewTotal(items, MY_TAB, me) == Sum(Mine(items, me))
  {
    if items != [] {
      var p, x := items[..|items| - 1], items[|items| - 1];
      assert items == p + [x];
      MyTabTotal(p, me);
      MineSnoc(p, x, me);
      if x.userId == me {
        SumAppend(Mine(p, me), [x]);
        assert [x][..0] == [];
      } else {
        assert Mine(items, me) == Mine(p, me);
      }
    }
  }

  /** In any other view the total is the sum over all the room's items. */
  lemma {:induction false} OtherViewTotal(items: seq<Item>, view: string, me: string)
    requires view != MY_TAB
    ensures ViewTotal(items, view, me) == Sum(items)
  {
    if items != [] {
      OtherViewTotal(items[..|items| - 1], view, me);
    }
  }

  /**
   * The "my tab" total is the total of the user's entry in the ranking when
   * the user has items, and 0 otherwise.
   */
  lemma MyTabIsRankingTotal(items: seq<Item>, me: string)
    ensures me in UserIds(items) <==> exists k :: 0 <= k < |Ranking(items)| && Ranking(items)[k].id == me
    ensures forall k :: 0 <= k < |Ranking(items)| && Ranking(items)[k].id == me ==>
      Ranking(items)[k].total == ViewTotal(items, MY_TAB, me)
    ensures me !in UserIds(items) ==> ViewTotal(items, MY_TAB, me) == 0.0
  {
    MyTabTotal(items, me);
    MineEmpty(items, me);
    GroupOfUser(items, me);
    RankingSorted(items);
    SameEntries(Groups(items), Ranking(items));
  }

  /** The groups hold an entry for me exactly when I have items, and its total is the sum of my items. */
  lemma GroupOfUser(items: seq<Item>, me: string)
    ensures me in UserIds(items) <==> exists k :: 0 <= k < |Groups(items)| && Groups(items)[k].id == me
    ensures forall k :: 0 <= k < |Groups(items)| && Groups(items)[k].id == me ==> Groups(items)[k].total == Sum(Mine(items, me))
  {
    FirstSeenUsers(items);
    var g := Groups(items);
    if me in UserIds(items) {
      var j :| 0 <= j < |g| && FirstSeen(items)[j] == me;
      assert g[j].id == me;
    }
  }

  lemma SameEntries(g: seq<Player>, r: seq<Player>)
    requires multiset(r) == multiset(g)
    ensures forall k :: 0 <= k < |r| ==> exists j :: 0 <= j < |g| && g[j] == r[k]
    ensures forall j :: 0 <= j < |g| ==> exists k :: 0 <= k < |r| && g[j] == r[k]
  {
    forall k | 0 <= k < |r|
      ensures exists j :: 0 <= j < |g| && g[j] == r[k]
    {
      assert r[k] in multiset(g);
    }
    forall j | 0 <= j < |g|
      ensures exists k :: 0 <= k < |r| && g[j] == r[k]
    {
      assert g[j] in multiset(r);
    }
  }

  /** `onClearMyTab={view === VIEW_MODES.MY_TAB ? onClearMyTab : undefined}`. */
  function ClearTabCallback<C>(view: string, onClearMyTab: C): (r: Option<C>)
    ensures r.Some? <==> view == MY_TAB
    ensures r.Some? ==> r.value == onClearMyTab
  {
    if view == MY_TAB then Some(onClearMyTab) else None
  }
}
