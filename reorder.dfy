/**
 * Reordering one's own items (page.js, `reorder`): the moved item and its
 * neighbour in the user's filtered list exchange their `created_at`
 * values, and the whole list is sorted again by `created_at`.
 *
 * PlanReorder is the decision (nothing, a thrown TypeError, or a swap of
 * two items); Reordered is the optimistic list that replaces the state.
 */
module Reorder {
  import opened StableSort
  import opened Items

  /** The sort key: `new Date(a.created_at) - new Date(b.created_at)` compares the timestamps. */
  function Stamp(i: Item): real {
    i.createdAt as real
  }

  /** `s.findIndex(i => i.id === id)`: the first position holding id, or -1. */
  function FindIndex(s: seq<Item>, id: int): (r: int)
    ensures -1 <= r < |s|
    ensures r == -1 <==> forall k :: 0 <= k < |s| ==> s[k].id != id
    ensures r >= 0 ==> s[r].id == id && forall k :: 0 <= k < r ==> s[k].id != id
  {
    if s == [] then -1
    else if s[0].id == id then 0
    else
      var r := FindIndex(s[1..], id);
      if r == -1 then -1 else r + 1
  }

  datatype Direction = Up | Down

  /** What `reorder` does before any write. */
  datatype Plan =
    | NoOp                  // the target index is outside the list: return
    | TypeError             // unknown id moved DOWN: `myItems[-1].created_at` throws
    | Swap(a: Item, b: Item) // a takes b's created_at and b takes a's

  function TargetIndex(c: int, dir: Direction): int {
    if dir == Up then c - 1 else c + 1
  }

  /** The decision of page.js's reorder for the item currentId of user me. */
  function PlanReorder(items: seq<Item>, me: string, currentId: int, dir: Direction): (p: Plan)
    ensures p.Swap? ==> p.a.id == currentId && p.a in Mine(items, me) && p.b in Mine(items, me)
  {
    var my := Mine(items, me);
    var c := FindIndex(my, currentId);
    var t := TargetIndex(c, dir);
    if t < 0 || t >= |my| then NoOp
    else if c < 0 then TypeError
    else Swap(my[c], my[t])
  }

  /** The callback of `items.map(...)`: the items with a's and b's ids get each other's timestamp. */
  function Retime(i: Item, a: Item, b: Item): Item {
    if i.id == a.id then i.(createdAt := b.createdAt)
    else if i.id == b.id then i.(createdAt := a.createdAt)
    else i
  }

  function SwapStamps(items: seq<Item>, a: Item, b: Item): (r: seq<Item>)
    ensures |r| == |items|
    ensures forall k :: 0 <= k < |items| ==> r[k] == Retime(items[k], a, b)
  {
    seq(|items|, k requires 0 <= k < |items| => Retime(items[k], a, b))
  }

  /** The optimistic list `setItems` receives. */
  function Reordered(items: seq<Item>, a: Item, b: Item): seq<Item> {
    SortByKey(SwapStamps(items, a, b), Stamp)
  }

  /** No two items share an id (the table's primary key). */
  predicate UniqueIds(s: seq<Item>) {
    forall i, j :: 0 <= i < |s| && 0 <= j < |s| && s[i].id == s[j].id ==> i == j
  }

  /** The `created_at` values of a list, in order. */
  function Stamps(s: seq<Item>): (r: seq<int>)
    ensures |r| == |s|
    ensures forall k :: 0 <= k < |s| ==> r[k] == s[k].createdAt
  {
    seq(|s|, k requires 0 <= k < |s| => s[k].createdAt)
  }

  // ---------------------------------------------------------------------
  // When reorder does something
  // ---------------------------------------------------------------------

  /** An id that is not among the user's items never leads to a swap. */
  lemma UnknownIdNeverSwaps(items: seq<Item>, me: string, currentId: int, dir: Direction)
    requires forall k :: 0 <= k < |Mine(items, me)| ==> Mine(items, me)[k].id != currentId
    ensures !PlanReorder(items, me, currentId, dir).Swap?
    ensures PlanReorder(items, me, currentId, dir) == TypeError <==> dir == Down && Mine(items, me) != []
  {
  }

  /** The arrows of page.js: UP shows when the index is positive, DOWN when it is not the last one. */
  function UpVisible(index: int): bool {
    index > 0
  }

  function DownVisible(index: int, length: int): bool {
    index < length - 1
  }

  /**
   * Each arrow is visible exactly when pressing it would swap: at a
   * boundary the arrow is hidden and reorder would do nothing.
   */
  lemma ArrowsMatchReorder(items: seq<Item>, me: string, k: nat)
    requires k < |Mine(items, me)| && UniqueIds(Mine(items, me))
    ensures UpVisible(k) <==> PlanReorder(items, me, Mine(items, me)[k].id, Up).Swap?
    ensures DownVisible(k, |Mine(items, me)|) <==> PlanReorder(items, me, Mine(items, me)[k].id, Down).Swap?
    ensures !UpVisible(k) ==> PlanReorder(items, me, Mine(items, me)[k].id, Up) == NoOp
    ensures !DownVisible(k, |Mine(items, me)|) ==> PlanReorder(items, me, Mine(items, me)[k].id, Down) == NoOp
  {
    var my := Mine(items, me);
    assert FindIndex(my, my[k].id) == k;
  }

  // ---------------------------------------------------------------------
  // What the swap does
  // ---------------------------------------------------------------------

  /**
   * With unique ids, the map exchanges the two timestamps: the item with
   * a's id now has b's created_at, the item with b's id a's, and every other
   * item, and every other field, is unchanged.
   */
  lemma SwapStampsEffect(items: seq<Item>, a: Item, b: Item, ia: nat, ib: nat)
    requires UniqueIds(items) && ia < |items| && ib < |items| && ia != ib
    requires items[ia] == a && items[ib] == b
    ensures SwapStamps(items, a, b) == items[ia := a.(createdAt := b.createdAt)][ib := b.(createdAt := a.createdAt)]
    ensures Stamps(SwapStamps(items, a, b)) == Stamps(items)[ia := b.createdAt][ib := a.createdAt]
  {
  }

  /** The optimistic list is sorted by created_at and is a permutation of the retimed items. */
  lemma ReorderedSortedPermutation(items: seq<Item>, a: Item, b: Item)
    ensures SortedBy(Reordered(items, a, b), Stamp)
    ensures multiset(Reordered(items, a, b)) == multiset(SwapStamps(items, a, b))
  {
    SortByKeySorted(SwapStamps(items, a, b), Stamp);
    SortByKeyPermutes(SwapStamps(items, a, b), Stamp);
  }

  /** Reordering keeps the same multiset of timestamps. */
  lemma ReorderKeepsStamps(items: seq<Item>, a: Item, b: Item, ia: nat, ib: nat)
    requires UniqueIds(items) && ia < |items| && ib < |items| && ia != ib
    requires items[ia] == a && items[ib] == b
    ensures multiset(Stamps(Reordered(items, a, b))) == multiset(Stamps(items))
  {
    SwapStampsEffect(items, a, b, ia, ib);
    SortStamps(SwapStamps(items, a, b));
    var s := Stamps(items);
    assert s[ia := s[ib]][ib := s[ia]] == Stamps(items)[ia := b.createdAt][ib := a.createdAt];
    SwapMultiset(s, ia, ib);
  }

  lemma SwapMultiset(s: seq<int>, i: nat, j: nat)
    requires i < |s| && j < |s| && i != j
    ensures multiset(s[i := s[j]][j := s[i]]) == multiset(s)
  {
    var t := s[i := s[j]];
    assert multiset(t) == multiset(s) - multiset{s[i]} + multiset{s[j]};
    assert t[j] == s[j];
    assert multiset(t[j := s[i]]) == multiset(t) - multiset{s[j]} + multiset{s[i]};
  }

  lemma {:induction false} SortStamps(s: seq<Item>)
    ensures multiset(Stamps(SortByKey(s, Stamp))) == multiset(Stamps(s))
  {
    if s != [] {
      var p, x := s[..|s| - 1], s[|s| - 1];
      SortStamps(p);
      InsertStamps(x, SortByKey(p, Stamp));
      assert Stamps(s) == Stamps(p) + [x.createdAt];
    }
  }

  lemma {:induction false} InsertStamps(x: Item, s: seq<Item>)
    ensures multiset(Stamps(Insert(x, s, Stamp))) == multiset(Stamps(s)) + multiset{x.createdAt}
  {
    if s == [] {
    } else if Stamp(s[0]) <= Stamp(x) {
      InsertStamps(x, s[1..]);
      assert Stamps(Insert(x, s, Stamp)) == [s[0].createdAt] + Stamps(Insert(x, s[1..], Stamp));
      assert Stamps(s) == [s[0].createdAt] + Stamps(s[1..]);
    } else {
      assert Stamps(Insert(x, s, Stamp)) == [x.createdAt] + Stamps(s);
    }
  }

  // ---------------------------------------------------------------------
  // The filtered lists after the swap
  // ---------------------------------------------------------------------

  /** Filtering by owner commutes with the retiming map, which keeps every user_id. */
  lemma {:induction false} FilterSwapStamps(s: seq<Item>, a: Item, b: Item, u: string)
    ensures Mine(SwapStamps(s, a, b), u) == SwapStamps(Mine(s, u), a, b)
  {
    if s != [] {
      FilterSwapStamps(s[1..], a, b, u);
      assert SwapStamps(s, a, b) == [Retime(s[0], a, b)] + SwapStamps(s[1..], a, b);
      var f := Mine(s[1..], u);
      if s[0].userId == u {
        assert SwapStamps([s[0]] + f, a, b) == [Retime(s[0], a, b)] + SwapStamps(f, a, b);
      }
    }
  }

  lemma {:induction false} FilterUnique(s: seq<Item>, u: string)
    requires UniqueIds(s)
    ensures UniqueIds(Mine(s, u))
  {
    if s != [] {
      assert UniqueIds(s[1..]) by {
        forall i, j | 0 <= i < |s[1..]| && 0 <= j < |s[1..]| && s[1..][i].id == s[1..][j].id
          ensures i == j
        {
          assert s[i + 1].id == s[j + 1].id;
        }
      }
      FilterUnique(s[1..], u);
      var f := Mine(s[1..], u);
      if s[0].userId == u {
        forall k | 0 <= k < |f|
          ensures f[k].id != s[0].id
        {
          FilterMembers(s[1..], Owner(u), f[k]);
          var j :| 0 <= j < |s[1..]| && s[1..][j] == f[k];
          assert s[j + 1] == f[k];
        }
        assert Mine(s, u) == [s[0]] + f;
      }
    }
  }

  /** A sorted list filtered stays sorted. */
  lemma FilterSorted(s: seq<Item>, u: string)
    requires SortedBy(s, Stamp)
    ensures SortedBy(Mine(s, u), Stamp)
  {
    SortByKeyOfSorted(s, Stamp);
    FilterSortCommute(s, Stamp, Owner(u));
    SortByKeySorted(Mine(s, u), Stamp);
  }

  /** Exchanging two neighbours with different keys changes no key class. */
  lemma AdjacentSwapClasses(p: seq<Item>, i: nat, t: real)
    requires i + 1 < |p| && Stamp(p[i]) != Stamp(p[i + 1])
    ensures WithKey(p[i := p[i + 1]][i + 1 := p[i]], Stamp, t) == WithKey(p, Stamp, t)
  {
    var q := p[i := p[i + 1]][i + 1 := p[i]];
    var u, v := p[..i], p[i + 2..];
    assert p == u + [p[i], p[i + 1]] + v;
    assert q == u + [p[i + 1], p[i]] + v;
    WithKeyAppend(u + [p[i], p[i + 1]], v, Stamp, t);
    WithKeyAppend(u, [p[i], p[i + 1]], Stamp, t);
    WithKeyAppend(u + [p[i + 1], p[i]], v, Stamp, t);
    WithKeyAppend(u, [p[i + 1], p[i]], Stamp, t);
    assert [p[i], p[i + 1]][1..] == [p[i + 1]];
    assert [p[i + 1], p[i]][1..] == [p[i]];
    assert [p[i + 1]][1..] == [] && [p[i]][1..] == [];
  }

  /**
   * On a list sorted by created_at, with unique ids, a swap of two
   * neighbours c and c + 1 of the user's list with different timestamps
   * leaves the user's list in the old order with the two positions
   * exchanged: each of the two items now carries the other's old timestamp
   * and sits in the other's old place.
   */
  lemma MyListAfterSwap(items: seq<Item>, me: string, c: nat)
    requires SortedBy(items, Stamp) && UniqueIds(items)
    requires c + 1 < |Mine(items, me)|
    requires Mine(items, me)[c].createdAt != Mine(items, me)[c + 1].createdAt
    ensures var my, a, b := Mine(items, me), Mine(items, me)[c], Mine(items, me)[c + 1];
      Mine(Reordered(items, a, b), me) == my[c := b.(createdAt := a.createdAt)][c + 1 := a.(createdAt := b.createdAt)]
  {
    var my := Mine(items, me);
    var a, b := my[c], my[c + 1];
    FilterUnique(items, me);
    FilterSorted(items, me);
    FilterSwapStamps(items, a, b, me);
    FilterSortCommute(SwapStamps(items, a, b), Stamp, Owner(me));
    SortNeighbourSwap(my, c);
  }

  /**
   * Pressing an arrow on the item at position k of the user's list, with a
   * neighbour t in that direction, plans the swap of the two, and the
   * user's list after reorder is the old one with positions k and t
   * exchanged, each item carrying the other's former timestamp. This holds
   * for UP (t = k - 1) and DOWN (t = k + 1) alike.
   */
  lemma PressSwapsNeighbours(items: seq<Item>, me: string, k: nat, dir: Direction)
    requires SortedBy(items, Stamp) && UniqueIds(items)
    requires k < |Mine(items, me)| && 0 <= TargetIndex(k, dir) < |Mine(items, me)|
    requires Mine(items, me)[k].createdAt != Mine(items, me)[TargetIndex(k, dir)].createdAt
    ensures var my, t := Mine(items, me), TargetIndex(k, dir);
      && PlanReorder(items, me, my[k].id, dir) == Swap(my[k], my[t])
      && Mine(Reordered(items, my[k], my[t]), me)
         == my[k := my[t].(createdAt := my[k].createdAt)][t := my[k].(createdAt := my[t].createdAt)]
  {
    var my, t := Mine(items, me), TargetIndex(k, dir);
    FilterUnique(items, me);
    assert FindIndex(my, my[k].id) == k;
    var a, b := my[k], my[t];
    assert a.id != b.id;
    if dir == Down {
      MyListAfterSwap(items, me, k);
    } else {
      MyListAfterSwap(items, me, t);
      SwapStampsSymmetric(items, a, b);
      assert my[t := a.(createdAt := b.createdAt)][k := b.(createdAt := a.createdAt)]
          == my[k := b.(createdAt := a.createdAt)][t := a.(createdAt := b.createdAt)];
    }
  }

  /** Swapping the stamps of a and b is the same as swapping those of b and a, when their ids differ. */
  lemma SwapStampsSymmetric(items: seq<Item>, a: Item, b: Item)
    requires a.id != b.id
    ensures SwapStamps(items, b, a) == SwapStamps(items, a, b)
    ensures Reordered(items, b, a) == Reordered(items, a, b)
  {
    assert forall k :: 0 <= k < |items| ==> Retime(items[k], b, a) == Retime(items[k], a, b);
  }

  /** Sorting a sorted list whose neighbours c and c + 1 exchanged timestamps exchanges the two items. */
  lemma SortNeighbourSwap(my: seq<Item>, c: nat)
    requires SortedBy(my, Stamp) && UniqueIds(my)
    requires c + 1 < |my| && my[c].createdAt != my[c + 1].createdAt
    ensures var a, b := my[c], my[c + 1];
      SortByKey(SwapStamps(my, a, b), Stamp) == my[c := b.(createdAt := a.createdAt)][c + 1 := a.(createdAt := b.createdAt)]
  {
    var a, b := my[c], my[c + 1];
    SwapStampsEffect(my, a, b, c, c + 1);
    var p := SwapStamps(my, a, b);
    var q := my[c := b.(createdAt := a.createdAt)][c + 1 := a.(createdAt := b.createdAt)];
    assert q == p[c := p[c + 1]][c + 1 := p[c]];
    assert SortedBy(q, Stamp) by {
      assert forall k :: 0 <= k < |q| ==> Stamp(q[k]) == Stamp(my[k]);
    }
    SortByKeySorted(p, Stamp);
    forall t
      ensures WithKey(SortByKey(p, Stamp), Stamp, t) == WithKey(q, Stamp, t)
    {
      SortByKeyStable(p, Stamp, t);
      AdjacentSwapClasses(p, c, t);
    }
    SortedDeterminedByClasses(SortByKey(p, Stamp), q, Stamp);
  }

  /** Other users' lists are untouched by a swap within my list (sorted input, unique ids). */
  lemma OthersUnchanged(items: seq<Item>, me: string, a: Item, b: Item, other: string)
    requires SortedBy(items, Stamp) && UniqueIds(items)
    requires a in Mine(items, me) && b in Mine(items, me) && other != me
    ensures Mine(Reordered(items, a, b), other) == Mine(items, other)
  {
    var theirs := Mine(items, other);
    FilterSwapStamps(items, a, b, other);
    FilterSortCommute(SwapStamps(items, a, b), Stamp, Owner(other));
    FilterMembers(items, Owner(me), a);
    FilterMembers(items, Owner(me), b);
    forall k | 0 <= k < |theirs|
      ensures Retime(theirs[k], a, b) == theirs[k]
    {
      FilterMembers(items, Owner(other), theirs[k]);
      NotRetimed(items, a, b, theirs[k]);
    }
    assert SwapStamps(theirs, a, b) == theirs;
    FilterSorted(items, other);
    SortByKeyOfSorted(theirs, Stamp);
  }

  /** With unique ids, an item of another user has neither a's nor b's id. */
  lemma NotRetimed(items: seq<Item>, a: Item, b: Item, y: Item)
    requires UniqueIds(items) && a in items && b in items && y in items
    requires y.userId != a.userId && y.userId != b.userId
    ensures Retime(y, a, b) == y
  {
    var i :| 0 <= i < |items| && items[i] == y;
    var ja :| 0 <= ja < |items| && items[ja] == a;
    var jb :| 0 <= jb < |items| && items[jb] == b;
    assert i != ja && i != jb;
  }
}
