/**
 * The ranking of RankingView.js (and its copy in page.js): the room's items
 * are grouped by user in an object built by `reduce`, the object's values
 * are taken in key order, and the players are sorted by total, largest
 * first, with a stable sort.
 *
 * Groups is the reference definition (one player per distinct user, in
 * first-appearance order, holding that user's items and their sum);
 * GroupByUser is the accumulator loop, proved to build it, and RankPlayers
 * sorts the result in place, proved to produce Ranking.
 */
module RankingView {
  import opened StableSort
  import opened Items

  /** One entry of the ranking: `{ id, name, total, items }`. */
  datatype Player = Player(id: string, name: string, total: real, items: seq<Item>)

  /** The user ids in the order the reduce first meets them: the key order of the accumulator object. */
  function FirstSeen(items: seq<Item>): seq<string> {
    if items == [] then []
    else
      var p := FirstSeen(items[..|items| - 1]);
      var u := items[|items| - 1].userId;
      if u in p then p else p + [u]
  }

  /** The name a group keeps: the `user_name` of the user's first item. */
  function NameOf(items: seq<Item>, u: string): string {
    var m := Mine(items, u);
    if m == [] then "" else m[0].userName
  }

  /** The accumulator entry of user u once every item has been folded in. */
  function PlayerOf(items: seq<Item>, u: string): Player {
    Player(u, NameOf(items, u), Sum(Mine(items, u)), Mine(items, u))
  }

  /** `Object.values(acc)`: one player per distinct user, in first-appearance order. */
  function Groups(items: seq<Item>): (g: seq<Player>)
    ensures |g| == |FirstSeen(items)|
  {
    var fs := FirstSeen(items);
    seq(|fs|, k requires 0 <= k < |fs| => PlayerOf(items, fs[k]))
  }

  /** The sort key: `(a, b) => b.total - a.total` orders by minus the total. */
  function NegTotal(p: Player): real {
    -p.total
  }

  /** The ranking as displayed: the groups stably sorted by total, largest first. */
  function Ranking(items: seq<Item>): seq<Player> {
    SortByKey(Groups(items), NegTotal)
  }

  /** The sum of the players' totals, as a left fold. */
  function SumTotals(ps: seq<Player>): real {
    if ps == [] then 0.0 else SumTotals(ps[..|ps| - 1]) + ps[|ps| - 1].total
  }

  /** Index of the first item of user u (|items| when u has none). */
  function FirstIndex(items: seq<Item>, u: string): (r: nat)
    ensures r <= |items|
    ensures r < |items| ==> items[r].userId == u
    ensures forall k :: 0 <= k < r ==> items[k].userId != u
  {
    if items == [] then 0
    else if items[0].userId == u then 0
    else 1 + FirstIndex(items[1..], u)
  }

  // ---------------------------------------------------------------------
  // The accumulator loop
  // ---------------------------------------------------------------------

  /**
   * `items.reduce(...)` followed by `Object.values`: the object is a map
   * plus the sequence of its keys in insertion order.
   */
  method GroupByUser(items: seq<Item>) returns (groups: seq<Player>)
    ensures groups == Groups(items)
  {
    var acc: map<string, Player> := map[];
    var keys: seq<string> := [];
    for i := 0 to |items|
      invariant keys == FirstSeen(items[..i])
      invariant forall u :: u in acc <==> u in keys
      invariant forall u :: u in acc ==> acc[u] == PlayerOf(items[..i], u)
    {
      var x := items[i];
      var g := if x.userId in acc then acc[x.userId] else Player(x.userId, x.userName, 0.0, []);
      if x.userId !in acc {
        keys := keys + [x.userId];
      }
      AccStep(acc, items[..i], x, g);
      acc := acc[x.userId := g.(total := g.total + LineTotal(x), items := g.items + [x])];
      FirstSeenSnoc(items[..i], x);
      assert items[..i + 1] == items[..i] + [x];
    }
    assert items[..|items|] == items;
    groups := seq(|keys|, k requires 0 <= k < |keys| => acc[keys[k]]);
    ValuesAreGroups(acc, keys, items, groups);
  }

  /** Taking the accumulator's values in key order gives Groups. */
  lemma ValuesAreGroups(acc: map<string, Player>, keys: seq<string>, items: seq<Item>, groups: seq<Player>)
    requires keys == FirstSeen(items)
    requires forall u :: u in acc ==> acc[u] == PlayerOf(items, u)
    requires |groups| == |keys|
    requires forall k :: 0 <= k < |keys| ==> keys[k] in acc && groups[k] == acc[keys[k]]
    ensures groups == Groups(items)
  {
  }

  /** One pass of the reduce callback keeps every entry equal to PlayerOf of the items seen so far. */
  lemma AccStep(acc: map<string, Player>, p: seq<Item>, x: Item, g: Player)
    requires forall u :: u in acc <==> u in FirstSeen(p)
    requires forall u :: u in acc ==> acc[u] == PlayerOf(p, u)
    requires g == if x.userId in acc then acc[x.userId] else Player(x.userId, x.userName, 0.0, [])
    ensures forall u :: u in acc[x.userId := g.(total := g.total + LineTotal(x), items := g.items + [x])] ==>
      acc[x.userId := g.(total := g.total + LineTotal(x), items := g.items + [x])][u] == PlayerOf(p + [x], u)
  {
    FirstSeenUsers(p);
    forall u | u in acc || u == x.userId
      ensures (if u == x.userId then g.(total := g.total + LineTotal(x), items := g.items + [x]) else acc[u]) == PlayerOf(p + [x], u)
    {
      PlayerOfSnoc(p, x, u);
    }
  }

  /** The ranking of RankingView.js: group, then sort the array of players in place. */
  method RankPlayers(items: seq<Item>) returns (ranking: seq<Player>)
    ensures ranking == Ranking(items)
  {
    var groups := GroupByUser(items);
    ranking := SortedCopy(groups, NegTotal);
  }

  // ---------------------------------------------------------------------
  // One more item
  // ---------------------------------------------------------------------

  lemma FirstSeenSnoc(p: seq<Item>, x: Item)
    ensures FirstSeen(p + [x]) == if x.userId in FirstSeen(p) then FirstSeen(p) else FirstSeen(p) + [x.userId]
  {
    assert (p + [x])[..|p|] == p;
  }

  /** The first-seen ids are exactly the users of the items, each once. */
  lemma {:induction false} FirstSeenUsers(items: seq<Item>)
    ensures forall u :: u in FirstSeen(items) <==> u in UserIds(items)
    ensures forall i, j :: 0 <= i < j < |FirstSeen(items)| ==> FirstSeen(items)[i] != FirstSeen(items)[j]
  {
    if items != [] {
      var p, x := items[..|items| - 1], items[|items| - 1];
      assert items == p + [x];
      FirstSeenUsers(p);
      FirstSeenSnoc(p, x);
      UserIdsSnoc(p, x);
    }
  }

  /** How one more item changes a user's accumulator entry. */
  lemma PlayerOfSnoc(p: seq<Item>, x: Item, u: string)
    ensures PlayerOf(p + [x], u) ==
      if u != x.userId then PlayerOf(p, u)
      else if u in UserIds(p) then PlayerOf(p, u).(total := PlayerOf(p, u).total + LineTotal(x), items := PlayerOf(p, u).items + [x])
      else Player(u, x.userName, 0.0 + LineTotal(x), [x])
  {
    MineSnoc(p, x, u);
    MineEmpty(p, u);
    var m, m' := Mine(p, u), Mine(p + [x], u);
    if u == x.userId {
      assert m' == m + [x];
      SumAppend(m, [x]);
      assert [x][..0] == [];
      assert Sum([x]) == 0.0 + LineTotal(x);
      assert Sum(m') == Sum(m) + LineTotal(x);
      if m != [] {
        assert m'[0] == m[0];
        assert NameOf(p + [x], u) == NameOf(p, u);
      } else {
        assert m' == [x];
        assert NameOf(p + [x], u) == x.userName;
      }
    } else {
      assert m' == m;
    }
  }

  // ---------------------------------------------------------------------
  // Properties of the groups
  // ---------------------------------------------------------------------

  /** There are as many groups as distinct user ids (and as RoomCard's participants). */
  lemma GroupCount(items: seq<Item>)
    ensures |Groups(items)| == |UserIds(items)|
  {
    FirstSeenUsers(items);
    var fs := FirstSeen(items);
    DistinctCard(fs);
    assert (set u | u in fs) == UserIds(items);
  }

  lemma {:induction false} DistinctCard(s: seq<string>)
    requires forall i, j :: 0 <= i < j < |s| ==> s[i] != s[j]
    ensures |set u | u in s| == |s|
  {
    if s != [] {
      var p := s[..|s| - 1];
      DistinctCard(p);
      assert (set u | u in s) == (set u | u in p) + {s[|s| - 1]};
      assert s[|s| - 1] !in (set u | u in p);
    }
  }

  /**
   * Every item lands in exactly one group: the group whose id is its
   * user_id holds it, and no other group does.
   */
  lemma ItemInExactlyOneGroup(items: seq<Item>, x: Item)
    requires x in items
    ensures exists k :: 0 <= k < |Groups(items)| && Groups(items)[k].id == x.userId
    ensures forall k :: 0 <= k < |Groups(items)| ==> (x in Groups(items)[k].items <==> Groups(items)[k].id == x.userId)
  {
    var g, fs := Groups(items), FirstSeen(items);
    FirstSeenUsers(items);
    assert x.userId in fs;
    var k :| 0 <= k < |fs| && fs[k] == x.userId;
    assert g[k].id == x.userId;
    forall k | 0 <= k < |g|
      ensures x in g[k].items <==> g[k].id == x.userId
    {
      if g[k].id == x.userId {
        MineHas(items, x);
      }
    }
  }

  lemma {:induction false} MineHas(items: seq<Item>, x: Item)
    requires x in items
    ensures x in Mine(items, x.userId)
  {
    if items[0] != x {
      MineHas(items[1..], x);
    }
  }

  /**
   * Each group is the user's items in their original order, its total is
   * their sum, its name the user_name of the first of them, and it is never
   * empty.
   */
  lemma GroupContents(items: seq<Item>, k: nat)
    requires k < |Groups(items)|
    ensures Groups(items)[k].items == Mine(items, Groups(items)[k].id) != []
    ensures Groups(items)[k].total == Sum(Groups(items)[k].items)
    ensures Groups(items)[k].name == Groups(items)[k].items[0].userName
  {
    FirstSeenUsers(items);
    MineEmpty(items, FirstSeen(items)[k]);
  }

  /** Groups appear in the order of their users' first items. */
  lemma {:induction false} FirstAppearanceOrder(items: seq<Item>)
    ensures forall i, j :: 0 <= i < j < |Groups(items)| ==>
      FirstIndex(items, Groups(items)[i].id) < FirstIndex(items, Groups(items)[j].id)
  {
    FirstSeenOrder(items);
  }

  lemma {:induction false} FirstSeenOrder(items: seq<Item>)
    ensures forall i, j :: 0 <= i < j < |FirstSeen(items)| ==>
      FirstIndex(items, FirstSeen(items)[i]) < FirstIndex(items, FirstSeen(items)[j])
    ensures forall i :: 0 <= i < |FirstSeen(items)| ==> FirstIndex(items, FirstSeen(items)[i]) < |items|
  {
    if items != [] {
      var p, x := items[..|items| - 1], items[|items| - 1];
      assert items == p + [x];
      FirstSeenOrder(p);
      FirstSeenSnoc(p, x);
      FirstSeenUsers(p);
      var fs, fs' := FirstSeen(p), FirstSeen(items);
      forall i | 0 <= i < |fs|
        ensures FirstIndex(items, fs[i]) == FirstIndex(p, fs[i])
      {
        FirstIndexSnoc(p, x, fs[i]);
      }
      if x.userId !in fs {
        FirstIndexSnoc(p, x, x.userId);
        assert fs'[|fs|] == x.userId;
      }
    }
  }

  lemma FirstIndexSnoc(p: seq<Item>, x: Item, u: string)
    requires FirstIndex(p, u) < |p| || x.userId == u
    ensures FirstIndex(p + [x], u) == FirstIndex(p, u)
  {
    var r, r' := FirstIndex(p, u), FirstIndex(p + [x], u);
    if r < |p| {
      assert (p + [x])[r] == p[r];
      assert r' <= r;
      assert r' < |p| ==> p[r'] == (p + [x])[r'];
    } else {
      assert (p + [x])[|p|].userId == u;
      assert r' <= |p|;
    }
  }

  // ---------------------------------------------------------------------
  // Properties of the ranking
  // ---------------------------------------------------------------------

  /** The ranking lists the groups, each once, sorted by total, largest first. */
  lemma RankingSorted(items: seq<Item>)
    ensures multiset(Ranking(items)) == multiset(Groups(items))
    ensures forall i, j :: 0 <= i < j < |Ranking(items)| ==> Ranking(items)[i].total >= Ranking(items)[j].total
  {
    SortByKeyPermutes(Groups(items), NegTotal);
    SortByKeySorted(Groups(items), NegTotal);
    var r := Ranking(items);
    forall i, j | 0 <= i < j < |r|
      ensures r[i].total >= r[j].total
    {
      assert NegTotal(r[i]) <= NegTotal(r[j]);
    }
  }

  /** Ties keep first-appearance order: the players with any given total come in the same order as in Groups. */
  lemma RankingTiesKeepOrder(items: seq<Item>, t: real)
    ensures WithKey(Ranking(items), NegTotal, -t) == WithKey(Groups(items), NegTotal, -t)
  {
    SortByKeyStable(Groups(items), NegTotal, -t);
  }

  /** The totals of the ranking add up to the whole room's total. */
  lemma RankingTotalsSum(items: seq<Item>)
    ensures SumTotals(Groups(items)) == Sum(items)
    ensures SumTotals(Ranking(items)) == Sum(items)
  {
    GroupsTotalsSum(items);
    SumTotalsSort(Groups(items));
  }

  lemma {:induction false} GroupsTotalsSum(items: seq<Item>)
    ensures SumTotals(Groups(items)) == Sum(items)
  {
    if items != [] {
      var p, x := items[..|items| - 1], items[|items| - 1];
      assert items == p + [x];
      GroupsTotalsSum(p);
      var g, g' := Groups(p), Groups(items);
      if x.userId in FirstSeen(p) {
        var k := GroupsSnocKnown(p, x);
        SumTotalsBump(g, g', k, LineTotal(x));
      } else {
        GroupsSnocNew(p, x);
        assert g' == g + [g'[|g|]];
      }
    }
  }

  /** An item of a user already seen adds its line to that user's group k and changes nothing else. */
  lemma GroupsSnocKnown(p: seq<Item>, x: Item) returns (k: nat)
    requires x.userId in FirstSeen(p)
    ensures |Groups(p + [x])| == |Groups(p)| && k < |Groups(p)|
    ensures Groups(p + [x])[k].total == Groups(p)[k].total + LineTotal(x)
    ensures forall i :: 0 <= i < |Groups(p)| && i != k ==> Groups(p + [x])[i].total == Groups(p)[i].total
  {
    FirstSeenSnoc(p, x);
    FirstSeenUsers(p);
    var fs := FirstSeen(p);
    k :| 0 <= k < |fs| && fs[k] == x.userId;
    PlayerOfSnoc(p, x, x.userId);
    forall i | 0 <= i < |fs| && i != k
      ensures Groups(p + [x])[i].total == Groups(p)[i].total
    {
      PlayerOfSnoc(p, x, fs[i]);
    }
  }

  /** An item of a new user opens a group at the end and changes nothing else. */
  lemma GroupsSnocNew(p: seq<Item>, x: Item)
    requires x.userId !in FirstSeen(p)
    ensures |Groups(p + [x])| == |Groups(p)| + 1
    ensures Groups(p + [x])[..|Groups(p)|] == Groups(p)
    ensures Groups(p + [x])[|Groups(p)|].total == 0.0 + LineTotal(x)
  {
    FirstSeenSnoc(p, x);
    FirstSeenUsers(p);
    var fs := FirstSeen(p);
    forall i | 0 <= i < |fs|
      ensures Groups(p + [x])[i] == Groups(p)[i]
    {
      PlayerOfSnoc(p, x, fs[i]);
    }
    PlayerOfSnoc(p, x, x.userId);
  }

  /** Adding d to one player's total adds d to the sum. */
  lemma {:induction false} SumTotalsBump(a: seq<Player>, b: seq<Player>, k: nat, d: real)
    requires |a| == |b| && k < |a|
    requires b[k].total == a[k].total + d
    requires forall i :: 0 <= i < |a| && i != k ==> b[i].total == a[i].total
    ensures SumTotals(b) == SumTotals(a) + d
  {
    var n := |a| - 1;
    assert SumTotals(a) == SumTotals(a[..n]) + a[n].total;
    assert SumTotals(b) == SumTotals(b[..n]) + b[n].total;
    if k < n {
      SumTotalsBump(a[..n], b[..n], k, d);
    } else {
      SumTotalsSame(a[..n], b[..n]);
    }
  }

  lemma {:induction false} SumTotalsSame(a: seq<Player>, b: seq<Player>)
    requires |a| == |b|
    requires forall i :: 0 <= i < |a| ==> b[i].total == a[i].total
    ensures SumTotals(b) == SumTotals(a)
  {
    if a != [] {
      SumTotalsSame(a[..|a| - 1], b[..|b| - 1]);
    }
  }

  lemma {:induction false} SumTotalsAppend(a: seq<Player>, b: seq<Player>)
    ensures SumTotals(a + b) == SumTotals(a) + SumTotals(b)
  {
    if b != [] {
      var b' := b[..|b| - 1];
      assert (a + b)[..|a + b| - 1] == a + b';
      SumTotalsAppend(a, b');
    } else {
      assert a + b == a;
    }
  }

  lemma SumTotalsCons(x: Player, s: seq<Player>)
    ensures SumTotals([x] + s) == x.total + SumTotals(s)
  {
    SumTotalsAppend([x], s);
    assert [x][..0] == [];
  }

  lemma {:induction false} SumTotalsInsert(x: Player, s: seq<Player>)
    ensures SumTotals(Insert(x, s, NegTotal)) == SumTotals(s) + x.total
  {
    if s == [] {
      assert [x][..0] == [];
    } else if NegTotal(s[0]) <= NegTotal(x) {
      SumTotalsInsert(x, s[1..]);
      SumTotalsCons(s[0], Insert(x, s[1..], NegTotal));
      SumTotalsCons(s[0], s[1..]);
      assert [s[0]] + s[1..] == s;
    } else {
      SumTotalsCons(x, s);
    }
  }

  /** Sorting does not change the sum of the totals. */
  lemma {:induction false} SumTotalsSort(s: seq<Player>)
    ensures SumTotals(SortByKey(s, NegTotal)) == SumTotals(s)
  {
    if s != [] {
      var p := s[..|s| - 1];
      SumTotalsSort(p);
      SumTotalsInsert(s[|s| - 1], SortByKey(p, NegTotal));
    }
  }
}
