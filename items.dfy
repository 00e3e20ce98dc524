/**
 * A row of the `comandas` table as the front end sees it: one ordered item
 * of one user in one room. Prices are exact reals (the JavaScript numbers'
 * rounding is not modelled), quantities integers, and `created_at` an
 * integer timestamp in milliseconds.
 */
module Items {
  import opened StableSort

  datatype Item = Item(
    id: int,
    roomId: string,
    userId: string,
    userName: string,
    nome: string,
    preco: real,
    qtd: int,
    createdAt: int)

  /** `item.preco * item.qtd`, the amount one line adds to a total. */
  function LineTotal(i: Item): real {
    i.preco * i.qtd as real
  }

  /** `items.reduce((acc, curr) => acc + curr.preco * curr.qtd, 0)`: a left fold, so the last item is added last. */
  function Sum(items: seq<Item>): real {
    if items == [] then 0.0 else Sum(items[..|items| - 1]) + LineTotal(items[|items| - 1])
  }

  /** The fold over a concatenation is the sum of the folds. */
  lemma {:induction false} SumAppend(a: seq<Item>, b: seq<Item>)
    ensures Sum(a + b) == Sum(a) + Sum(b)
  {
    if b != [] {
      var b' := b[..|b| - 1];
      assert (a + b)[..|a + b| - 1] == a + b';
      SumAppend(a, b');
    } else {
      assert a + b == a;
    }
  }

  /** The fold taken from the front: the first line plus the sum of the rest. */
  lemma SumCons(x: Item, s: seq<Item>)
    ensures Sum([x] + s) == LineTotal(x) + Sum(s)
  {
    SumAppend([x], s);
    assert [x][..0] == [];
  }

  /** The predicate `i => i.user_id === u` used by every per-user filter. */
  function Owner(u: string): Item -> bool {
    (i: Item) => i.userId == u
  }

  /** `items.filter(i => i.user_id === u)`: the items of user u, in order. */
  function Mine(items: seq<Item>, u: string): seq<Item> {
    Filter(items, Owner(u))
  }

  /** Filtering one more item at the end. */
  lemma MineSnoc(p: seq<Item>, x: Item, u: string)
    ensures Mine(p + [x], u) == Mine(p, u) + (if x.userId == u then [x] else [])
  {
    FilterAppend(p, [x], Owner(u));
    assert [x][1..] == [];
  }

  /** The distinct `user_id`s of the items. */
  function UserIds(items: seq<Item>): set<string> {
    set x | x in items :: x.userId
  }

  lemma UserIdsSnoc(p: seq<Item>, x: Item)
    ensures UserIds(p + [x]) == UserIds(p) + {x.userId}
  {
    assert forall y :: y in p + [x] <==> y in p || y == x;
  }

  /** A user has items exactly when it is one of the items' users. */
  lemma {:induction false} MineEmpty(items: seq<Item>, u: string)
    ensures Mine(items, u) == [] <==> u !in UserIds(items)
  {
    if items != [] {
      var p, x := items[..|items| - 1], items[|items| - 1];
      assert items == p + [x];
      MineEmpty(p, u);
      MineSnoc(p, x, u);
      UserIdsSnoc(p, x);
    }
  }
}
