/**
 * The lobby's room card (RoomCard.js): how many people have items in the
 * room and what the room has spent.
 */
module RoomCard {
  import opened Items
  import opened RankingView
  import opened RoomScreen

  /** `items.map(i => i.user_id)`. */
  function UserIdList(items: seq<Item>): (r: seq<string>)
    ensures |r| == |items|
    ensures forall k :: 0 <= k < |items| ==> r[k] == items[k].userId
  {
    seq(|items|, k requires 0 <= k < |items| => items[k].userId)
  }

  /** `new Set(items.map(i => i.user_id)).size`. */
  function Participants(items: seq<Item>): nat {
    |set u | u in UserIdList(items)|
  }

  lemma ParticipantsAreUsers(items: seq<Item>)
    ensures Participants(items) == |UserIds(items)|
  {
    var l := UserIdList(items);
    forall u | u in UserIds(items)
      ensures u in l
    {
      var x :| x in items && x.userId == u;
      var k :| 0 <= k < |items| && items[k] == x;
      assert l[k] == u;
    }
    assert (set u | u in l) == UserIds(items);
  }

  /** There are at most as many participants as items, and none exactly when there are no items. */
  lemma {:induction false} ParticipantsBounds(items: seq<Item>)
    ensures Participants(items) <= |items|
    ensures Participants(items) == 0 <==> items == []
  {
    ParticipantsAreUsers(items);
    UserIdsBound(items);
    if items != [] {
      assert items[0].userId in UserIds(items);
    }
  }

  lemma {:induction false} UserIdsBound(items: seq<Item>)
    ensures |UserIds(items)| <= |items|
  {
    if items != [] {
      var p, x := items[..|items| - 1], items[|items| - 1];
      assert items == p + [x];
      UserIdsBound(p);
      UserIdsSnoc(p, x);
    }
  }

  /** The card's participants are the entries of the room's ranking. */
  lemma ParticipantsAreRanked(items: seq<Item>)
    ensures Participants(items) == |Ranking(items)|
  {
    ParticipantsAreUsers(items);
    GroupCount(items);
    RankingSorted(items);
    assert |multiset(Ranking(items))| == |multiset(Groups(items))|;
  }

  /**
   * `roomTotal`, `items.reduce((acc, curr) => acc + curr.preco * curr.qtd, 0)`,
   * is Sum: it equals the room screen's total in any view but the user's
   * own tab, and the sum of the ranking's totals.
   */
  lemma RoomTotalAgrees(items: seq<Item>, view: string, me: string)
    requires view != MY_TAB
    ensures Sum(items) == ViewTotal(items, view, me)
    ensures Sum(items) == SumTotals(Ranking(items))
  {
    OtherViewTotal(items, view, me);
    RankingTotalsSum(items);
  }
}
