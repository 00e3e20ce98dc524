/**
 * One player's card in the ranking (RankingCard.js): the position badge,
 * and the two admin handlers that edit an item of the player or add one.
 * The values the handlers read from the form fields are parameters, as is
 * the answer to the confirm dialog; each callback the card invokes
 * (`onDeleteItem`, `onUpdateItem`, `onAddItem`) and each `alert` is
 * appended to `calls`.
 */
module RankingCard {
  import opened Wrappers
  import opened Decimal
  import opened Currency
  import opened JsText
  import opened Items
  import opened RankingView

  /** The badge text and its CSS class. */
  datatype Position = Position(icon: string, cls: string)

  const Gold: string := "\U{1F947}"
  const Silver: string := "\U{1F948}"
  const Bronze: string := "\U{1F949}"
  /** The ordinal indicator written after a position number. */
  const Ordinal: char := '\U{BA}'

  /** The badge of the player at `index` (0-based) in the ranking: medals for the podium, "nº" after it. */
  function PositionLabel(index: nat): (r: Position)
    ensures index < 3 <==> r.cls != "pos-n"
    ensures index < 3 ==> r.cls == "pos-" + NatToString(index + 1) && |r.icon| == 1
    ensures index >= 3 ==> |r.icon| >= 2 && r.icon[|r.icon| - 1] == Ordinal
  {
    if index == 0 then Position(Gold, "pos-1")
    else if index == 1 then Position(Silver, "pos-2")
    else if index == 2 then Position(Bronze, "pos-3")
    else Position(NatToString(index + 1) + [Ordinal], "pos-n")
  }

  /** Past the podium the badge's number is the 1-based position: parseInt reads index + 1 back from it. */
  lemma PositionNumberReadsBack(index: nat)
    requires index >= 3
    ensures ParseInt(PositionLabel(index).icon) == Some(index + 1)
  {
    assert PositionLabel(index).icon == NatToString(index + 1) + [Ordinal];
    ParseIntOfDecimalPrefix(index + 1, [Ordinal]);
  }

  /** Different positions get different badges. */
  lemma PositionLabelInjective(i: nat, j: nat)
    requires PositionLabel(i) == PositionLabel(j)
    ensures i == j
  {
    if i >= 3 && j >= 3 {
      var a, b := NatToString(i + 1), NatToString(j + 1);
      assert a + [Ordinal] == b + [Ordinal];
      assert a == (a + [Ordinal])[..|a|];
      assert b == (b + [Ordinal])[..|b|];
      NatToStringInjective(i + 1, j + 1);
    }
  }

  // ---------------------------------------------------------------------
  // The admin handlers
  // ---------------------------------------------------------------------

  /** A callback invocation or alert made by the card. A quantity of None is JavaScript's NaN. */
  datatype Call =
    | DeleteItem(id: int)
    | UpdateItem(id: int, nome: string, preco: real, qtd: Option<int>)
    | AddItem(playerId: string, playerName: string, nome: string, preco: real, qtd: Option<int>)
    | Alert(message: string)

  const MissingFields: string := "Preencha nome e pre\U{E7}o."

  /** What the handlers guarantee about the calls they make. */
  predicate CallOk(c: Call) {
    match c
    case UpdateItem(_, _, _, qtd) => qtd.None? || qtd.value > 0
    case AddItem(_, _, nome, preco, _) => nome != "" && preco > 0.0
    case _ => true
  }

  /** `qtyInput === '' ? 0 : parseInt(qtyInput)`. */
  function QtyFromField(text: string): (q: Option<int>)
    ensures text == "" ==> q == Some(0)
    ensures text != "" ==> q == ParseInt(text)
    ensures text != "" && (forall k :: 0 <= k < |text| ==> !IsDigit(text[k])) ==> q.None?
  {
    if text == "" then Some(0) else ParseInt(text)
  }

  /** A quantity that sends handleSaveEdit down its delete branch: a number at most 0 (NaN is not). */
  predicate RemovesItem(q: Option<int>) {
    q.Some? && q.value <= 0
  }

  /** The calls handleSaveEdit makes for item `id` with the given field values. */
  function SaveEditCalls(id: int, name: string, priceText: string, qtyText: string, confirmed: bool): (r: seq<Call>)
    ensures forall k :: 0 <= k < |r| ==> CallOk(r[k])
    ensures RemovesItem(QtyFromField(qtyText)) ==> forall k :: 0 <= k < |r| ==> r[k] == DeleteItem(id)
    ensures r == [] <==> RemovesItem(QtyFromField(qtyText)) && !confirmed
    ensures !RemovesItem(QtyFromField(qtyText)) ==>
      r == [UpdateItem(id, name, ParseCurrency(priceText), QtyFromField(qtyText))]
  {
    var q := QtyFromField(qtyText);
    if RemovesItem(q) then (if confirmed then [DeleteItem(id)] else [])
    else [UpdateItem(id, name, ParseCurrency(priceText), q)]
  }

  /** The call handleAddItem makes for the player with the given field values. */
  function AddItemCall(playerId: string, playerName: string, name: string, priceText: string, qtyText: string): (c: Call)
    ensures CallOk(c)
    ensures c.AddItem? <==> name != "" && ParseCurrency(priceText) > 0.0
    ensures c.AddItem? ==> c == AddItem(playerId, playerName, name, ParseCurrency(priceText), ParseInt(qtyText))
    ensures !c.AddItem? ==> c == Alert(MissingFields)
  {
    var price := ParseCurrency(priceText);
    if name != "" && price > 0.0 then AddItem(playerId, playerName, name, price, ParseInt(qtyText))
    else Alert(MissingFields)
  }

  class Card {
    const player: Player
    var editingItemId: Option<int>
    var isAdding: bool
    var calls: seq<Call>

    /** Every call made so far respects the handlers' checks. */
    predicate Valid()
      reads this
    {
      forall k :: 0 <= k < |calls| ==> CallOk(calls[k])
    }

    /** A fresh card: no item being edited, the add form closed, no calls. */
    constructor (player: Player)
      ensures Valid()
      ensures this.player == player && editingItemId == None && !isAdding && calls == []
    {
      this.player := player;
      editingItemId := None;
      isAdding := false;
      calls := [];
    }

    /** handleSaveEdit: the confirm dialog's answer is a parameter. */
    method HandleSaveEdit(item: Item, name: string, priceText: string, qtyText: string, confirmed: bool)
      requires Valid()
      modifies this
      ensures Valid()
      ensures calls == old(calls) + SaveEditCalls(item.id, name, priceText, qtyText, confirmed)
      ensures editingItemId == if calls == old(calls) then old(editingItemId) else None
      ensures isAdding == old(isAdding)
    {
      var r := SaveEditCalls(item.id, name, priceText, qtyText, confirmed);
      Record(r);
      if r != [] {
        editingItemId := None;
      }
    }

    /** handleAddItem: the call is made and the form closed, or the alert is shown and the form stays open. */
    method HandleAddItem(name: string, priceText: string, qtyText: string)
      requires Valid()
      modifies this
      ensures Valid()
      ensures calls == old(calls) + [AddItemCall(player.id, player.name, name, priceText, qtyText)]
      ensures isAdding == if calls[|calls| - 1].AddItem? then false else old(isAdding)
      ensures editingItemId == old(editingItemId)
    {
      var c := AddItemCall(player.id, player.name, name, priceText, qtyText);
      Record([c]);
      if c.AddItem? {
        isAdding := false;
      }
    }

    /** Appends calls that respect the checks. */
    method Record(r: seq<Call>)
      requires Valid() && forall k :: 0 <= k < |r| ==> CallOk(r[k])
      modifies this
      ensures Valid()
      ensures calls == old(calls) + r
      ensures editingItemId == old(editingItemId) && isAdding == old(isAdding)
    {
      calls := calls + r;
    }
  }

  // ---------------------------------------------------------------------
  // The edit form's pre-filled fields
  // ---------------------------------------------------------------------

  /**
   * The edit form's price field starts as `formatCurrencyInput(preco.toFixed(2))`
   * (toFixed(2) rounds to whole cents). It reads back as the price rounded
   * to cents, within half a cent of it.
   */
  function EditPriceField(preco: real): (t: string)
    requires preco >= 0.0 && RoundCents(preco) < MaxExactCents
    ensures ParseCurrency(t) == RoundCents(preco) as real / 100.0
    ensures -0.005 < ParseCurrency(t) - preco <= 0.005
  {
    PrefilledPriceRoundTrip(preco);
    FormatCurrencyInput(ToFixed2(RoundCents(preco)))
  }

  /**
   * Saving the edit form of an item unchanged (name field holding `nome`,
   * price field as pre-filled, quantity field holding `qtd`) updates the
   * item with its name, its quantity, and its price rounded to cents.
   */
  lemma SaveUnchangedForm(id: int, nome: string, preco: real, qtd: nat, confirmed: bool)
    requires preco >= 0.0 && RoundCents(preco) < MaxExactCents && qtd > 0
    ensures SaveEditCalls(id, nome, EditPriceField(preco), NatToString(qtd), confirmed)
      == [UpdateItem(id, nome, RoundCents(preco) as real / 100.0, Some(qtd))]
  {
    QtyFieldReadsNumber(qtd);
    var t := EditPriceField(preco);
    assert ParseCurrency(t) == RoundCents(preco) as real / 100.0;
  }

  /** The quantity field pre-filled with a positive quantity reads back as that quantity. */
  lemma QtyFieldReadsNumber(q: nat)
    requires q > 0
    ensures QtyFromField(NatToString(q)) == Some(q)
  {
    ParseIntOfDecimal(q);
  }

  /** With text from the price field, the add form is accepted exactly when a name is given and the digits are not all zero. */
  lemma AddAcceptsFormattedPrice(playerId: string, playerName: string, name: string, text: string, qtyText: string)
    requires Cents(text) < MaxExactCents
    ensures AddItemCall(playerId, playerName, name, FormatCurrencyInput(text), qtyText).AddItem? <==> name != "" && Cents(text) > 0
  {
    ParseFormatRoundTrip(text);
  }
}
