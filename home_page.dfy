/**
 * The room screen state of page.js (the `Home` component) and its
 * handlers: the item list, the add-item form, the item being edited, and
 * the writes sent to the `comandas` table. React's `setX` calls become
 * field assignments; each awaited database write is appended to `writes`;
 * dialog answers are parameters. Refetching the list after a write
 * (`fetchItems`) reads the database and is not part of the model.
 */
module HomePage {
  import opened Wrappers
  import opened Decimal
  import opened Currency
  import opened JsText
  import opened StableSort
  import opened Items
  import opened Reorder

  /** A write sent to the `comandas` table. */
  datatype Write =
    | InsertItem(roomId: string, userId: string, userName: string, nome: string, preco: real, qtd: int)
    | DeleteItem(id: int)
    | SetQtd(id: int, qtd: int)
    | SetNameAndPrice(id: int, nome: string, preco: real)
    | SetCreatedAt(id: int, createdAt: int)

  /** What the page's handlers guarantee about every write they send. */
  predicate WriteOk(w: Write) {
    match w
    case InsertItem(_, _, _, nome, preco, _) => nome != "" && preco > 0.0
    case SetQtd(_, qtd) => qtd > 0
    case SetNameAndPrice(_, nome, preco) => nome != "" && preco > 0.0
    case _ => true
  }

  /** The price the handlers read: `parseFloat(s.replace(/[^\d,]/g, '').replace(',', '.')) || 0`, which is parseCurrency. */
  function PriceOf(priceText: string): real {
    ParseCurrency(priceText)
  }

  /** addItem's write: an insert when the name is non-empty and the price positive, nothing otherwise. */
  function AddItemWrite(roomId: string, userId: string, userName: string, name: string, priceText: string, qty: int): (w: Option<Write>)
    ensures w.Some? <==> name != "" && PriceOf(priceText) > 0.0
    ensures w.Some? ==> WriteOk(w.value) && w.value.InsertItem? && w.value.qtd == qty && w.value.preco == PriceOf(priceText)
  {
    var price := PriceOf(priceText);
    if name != "" && price > 0.0 then Some(InsertItem(roomId, userId, userName, name, price, qty)) else None
  }

  /** updateQty's writes: a positive quantity is written, anything else deletes if confirmed. */
  function UpdateQtyWrites(id: int, newQty: int, confirmed: bool): (w: seq<Write>)
    ensures forall k :: 0 <= k < |w| ==> WriteOk(w[k])
    ensures newQty <= 0 ==> forall k :: 0 <= k < |w| ==> w[k] == DeleteItem(id)
    ensures w == [] <==> newQty <= 0 && !confirmed
    ensures newQty > 0 ==> w == [SetQtd(id, newQty)]
  {
    if newQty <= 0 then (if confirmed then [DeleteItem(id)] else []) else [SetQtd(id, newQty)]
  }

  /** saveEdit's write: name and price when the name is non-empty and the price positive. */
  function SaveEditWrite(id: int, name: string, priceText: string): (w: Option<Write>)
    ensures w.Some? <==> name != "" && PriceOf(priceText) > 0.0
    ensures w.Some? ==> WriteOk(w.value) && w.value == SetNameAndPrice(id, name, PriceOf(priceText))
  {
    var price := PriceOf(priceText);
    if name != "" && price > 0.0 then Some(SetNameAndPrice(id, name, price)) else None
  }

  /** The quantity field: `parseInt(e.target.value) || 1` (NaN and 0 become 1). */
  function QtyFieldInput(text: string): (q: int)
    ensures q != 0
    ensures ParseInt(text).None? ==> q == 1
    ensures ParseInt(text).Some? && ParseInt(text).value != 0 ==> q == ParseInt(text).value
  {
    match ParseInt(text)
    case None => 1
    case Some(n) => if n == 0 then 1 else n
  }

  /** The writes of an optional write: none or one. */
  function OptionList(w: Option<Write>): (r: seq<Write>)
    ensures |r| <= 1 && (r == [] <==> w.None?)
  {
    if w.Some? then [w.value] else []
  }

  /** The two writes of a swap: a gets b's created_at, then b gets a's. */
  function SwapWrites(a: Item, b: Item): seq<Write> {
    [SetCreatedAt(a.id, b.createdAt), SetCreatedAt(b.id, a.createdAt)]
  }

  class RoomPage {
    const roomId: string
    const userId: string
    const userName: string
    var items: seq<Item>
    var editingId: Option<int>
    var isFormOpen: bool
    var newItemName: string
    var newItemPrice: string
    var newItemQty: int
    var writes: seq<Write>

    /** Every write sent so far respects the handlers' checks. */
    predicate Valid()
      reads this
    {
      forall k :: 0 <= k < |writes| ==> WriteOk(writes[k])
    }

    /** The state when the room opens: an empty form with price "R$ 0,00" and quantity 1. */
    constructor (roomId: string, userId: string, userName: string, items: seq<Item>)
      ensures Valid()
      ensures this.roomId == roomId && this.userId == userId && this.userName == userName
      ensures this.items == items && editingId == None && !isFormOpen
      ensures newItemName == "" && newItemPrice == "R$ 0,00" && newItemQty == 1 && writes == []
    {
      this.roomId := roomId;
      this.userId := userId;
      this.userName := userName;
      this.items := items;
      editingId := None;
      isFormOpen := false;
      newItemName := "";
      newItemPrice := "R$ 0,00";
      newItemQty := 1;
      writes := [];
    }

    /** The price field's onChange: the typed text goes through formatCurrencyInput. */
    method OnPriceInput(text: string)
      requires Cents(text) < MaxExactCents
      modifies this
      ensures newItemPrice == FormatCurrencyInput(text)
      ensures items == old(items) && writes == old(writes) && newItemName == old(newItemName)
      ensures newItemQty == old(newItemQty) && isFormOpen == old(isFormOpen) && editingId == old(editingId)
    {
      newItemPrice := FormatCurrencyInput(text);
    }

    /** The quantity field's onChange. */
    method OnQtyInput(text: string)
      modifies this
      ensures newItemQty == QtyFieldInput(text)
      ensures items == old(items) && writes == old(writes) && newItemName == old(newItemName)
      ensures newItemPrice == old(newItemPrice) && isFormOpen == old(isFormOpen) && editingId == old(editingId)
    {
      newItemQty := QtyFieldInput(text);
    }

    /** addItem: insert the form's item and reset the form, or do nothing. */
    method AddItem()
      requires Valid()
      modifies this
      ensures Valid()
      ensures writes == old(writes) + OptionList(AddItemWrite(roomId, userId, userName, old(newItemName), old(newItemPrice), old(newItemQty)))
      ensures AddItemWrite(roomId, userId, userName, old(newItemName), old(newItemPrice), old(newItemQty)).Some? ==>
        newItemName == "" && newItemPrice == "R$ 0,00" && newItemQty == 1 && !isFormOpen
      ensures AddItemWrite(roomId, userId, userName, old(newItemName), old(newItemPrice), old(newItemQty)).None? ==>
        newItemName == old(newItemName) && newItemPrice == old(newItemPrice)
        && newItemQty == old(newItemQty) && isFormOpen == old(isFormOpen)
      ensures items == old(items) && editingId == old(editingId)
    {
      var w := AddItemWrite(roomId, userId, userName, newItemName, newItemPrice, newItemQty);
      SubmitInsert(w);
    }

    /** The second half of addItem: send the insert, if any, then clear and close the form. */
    method SubmitInsert(w: Option<Write>)
      requires Valid() && (w.Some? ==> WriteOk(w.value))
      modifies this
      ensures Valid()
      ensures writes == old(writes) + OptionList(w)
      ensures w.Some? ==> newItemName == "" && newItemPrice == "R$ 0,00" && newItemQty == 1 && !isFormOpen
      ensures w.None? ==>
        && newItemName == old(newItemName) && newItemPrice == old(newItemPrice)
        && newItemQty == old(newItemQty) && isFormOpen == old(isFormOpen)
      ensures items == old(items) && editingId == old(editingId)
    {
      if w.Some? {
        writes := writes + [w.value];
        newItemName := "";
        newItemPrice := "R$ 0,00";
        newItemQty := 1;
        isFormOpen := false;
      }
    }

    /** updateQty: the confirm dialog's answer is a parameter. */
    method UpdateQty(id: int, newQty: int, confirmed: bool)
      requires Valid()
      modifies this
      ensures Valid()
      ensures writes == old(writes) + UpdateQtyWrites(id, newQty, confirmed)
      ensures items == old(items) && editingId == old(editingId) && isFormOpen == old(isFormOpen)
      ensures newItemName == old(newItemName) && newItemPrice == old(newItemPrice) && newItemQty == old(newItemQty)
    {
      if newQty <= 0 {
        if confirmed {
          writes := writes + [DeleteItem(id)];
        }
      } else {
        writes := writes + [SetQtd(id, newQty)];
      }
    }

    /** saveEdit: write name and price and close the editor, or do nothing. */
    method SaveEdit(id: int, name: string, priceText: string)
      requires Valid()
      modifies this
      ensures Valid()
      ensures var w := SaveEditWrite(id, name, priceText);
        if w.Some? then writes == old(writes) + [w.value] && editingId == None
        else writes == old(writes) && editingId == old(editingId)
      ensures items == old(items) && isFormOpen == old(isFormOpen)
      ensures newItemName == old(newItemName) && newItemPrice == old(newItemPrice) && newItemQty == old(newItemQty)
    {
      var w := SaveEditWrite(id, name, priceText);
      if w.Some? {
        writes := writes + [w.value];
        editingId := None;
      }
    }

    /**
     * reorder: on a swap the list becomes Reordered (the retimed items
     * sorted in place by created_at) and the two timestamps are written;
     * otherwise nothing changes (a thrown TypeError also stops the
     * handler before any state change).
     */
    method Reorder(currentId: int, dir: Direction) returns (plan: Plan)
      requires Valid()
      modifies this
      ensures Valid()
      ensures plan == PlanReorder(old(items), userId, currentId, dir)
      ensures plan.Swap? ==> items == Reordered(old(items), plan.a, plan.b) && writes == old(writes) + SwapWrites(plan.a, plan.b)
      ensures !plan.Swap? ==> items == old(items) && writes == old(writes)
      ensures editingId == old(editingId) && isFormOpen == old(isFormOpen)
      ensures newItemName == old(newItemName) && newItemPrice == old(newItemPrice) && newItemQty == old(newItemQty)
    {
      plan := PlanReorder(items, userId, currentId, dir);
      if plan.Swap? {
        ApplySwap(plan.a, plan.b);
      }
    }

    /** The swap half of reorder: retime a and b, re-sort the list by created_at, and write both timestamps. */
    method ApplySwap(a: Item, b: Item)
      requires Valid()
      modifies this
      ensures Valid()
      ensures items == Reordered(old(items), a, b) && writes == old(writes) + SwapWrites(a, b)
      ensures editingId == old(editingId) && isFormOpen == old(isFormOpen)
      ensures newItemName == old(newItemName) && newItemPrice == old(newItemPrice) && newItemQty == old(newItemQty)
    {
      var updated := SwapStamps(items, a, b);
      items := SortedCopy(updated, Stamp);
      writes := writes + SwapWrites(a, b);
    }
  }

  // ---------------------------------------------------------------------
  // Properties of the handlers' decisions
  // ---------------------------------------------------------------------

  /** Text produced by the price field passes the price check exactly when its digits are not all zero. */
  lemma FormattedPriceAccepted(text: string)
    requires Cents(text) < MaxExactCents
    ensures PriceOf(FormatCurrencyInput(text)) == Cents(text) as real / 100.0
    ensures PriceOf(FormatCurrencyInput(text)) > 0.0 <==> Cents(text) > 0
  {
    ParseFormatRoundTrip(text);
  }

  /**
   * addItem does not look at the quantity: with a name and a formatted
   * non-zero price, any quantity reaches the insert, 0 and negative ones
   * included (the quantity field's `|| 1` only replaces NaN and 0).
   */
  lemma AddItemForwardsAnyQuantity(roomId: string, userId: string, userName: string, name: string, text: string, qty: int)
    requires name != "" && 0 < Cents(text) < MaxExactCents
    ensures AddItemWrite(roomId, userId, userName, name, FormatCurrencyInput(text), qty)
      == Some(InsertItem(roomId, userId, userName, name, Cents(text) as real / 100.0, qty))
  {
    FormattedPriceAccepted(text);
  }

  /** Typing "-2" in the quantity field stores -2. */
  lemma NegativeQuantityField()
    ensures QtyFieldInput("-2") == -2
  {
    var two: string := ['2'];
    assert two[..0] == [] && two[1..] == [];
    assert DigitValue(two) == 2;
    assert DigitPrefix(two, false) == two;
    assert ParseMagnitude(two) == Some(2);
    var s: string := ['-', '2'];
    assert s[1..] == two;
    assert ParseSigned(s) == Some(-2);
    assert TrimStart(s) == s;
    assert s == "-2";
  }
}
