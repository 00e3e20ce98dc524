# Firezone Hub — a verified model of the tab, ranking and reordering logic

Firezone Hub is a small web app for splitting a bar tab ("comanda") among
the people at a table ("room"). Each person adds lines to their own tab:
a name (`nome`), a unit price (`preco`) and a quantity (`qtd`). The room
shows either the user's own tab or a ranking of everyone by total. Prices
are typed into a Brazilian-real field that reformats itself as the user
types ("R$ 1.234,56"). The user's identity and current room live in the
browser's `localStorage`.

This project models, in Dafny, the parts of the app that compute things:

- **Currency** (`src/utils/currency.js`): `formatCurrencyInput` and
  `parseCurrency`, as text operations on the digits typed. The formatter
  is proved equal to a reference layout (`Display`), idempotent, and
  read back exactly by the parser.
- **Items, totals and participants** (`RoomScreen.js`, `RoomCard.js`, the
  dock of `page.js`): the left-fold totals, the "my tab" total and the
  distinct-user count.
- **Ranking** (`RankingView.js` and the same reduce in `page.js`): the
  grouping of items by user into an insertion-ordered map, then a stable
  sort by total, largest first. The grouping is a method with a loop over
  a `map`, proved equal to a reference definition. The sort is an in-place
  insertion sort on an `array`, proved equal to a reference stable sort.
  Lemmas show that each item lands in exactly one group, that ties keep
  first-appearance order, and that the totals add up to the room total.
- **Reordering** (`page.js`): the move-up/move-down decision, the
  timestamp swap and the re-sort. The effect on the user's list is proved:
  for an UP or a DOWN press the pressed item and its neighbour trade places,
  and every other user's list is unchanged.
  The arrows' visibility is proved to match the cases where a swap happens.
- **The room page** (`page.js`): a class holding the page state (items,
  add-item form, item being edited, writes sent to the `comandas` table)
  with `addItem`, `updateQty`, `saveEdit`, `reorder` and the two form
  inputs as methods.
- **A ranking card** (`RankingCard.js`): the position badge and the admin
  handlers `handleSaveEdit` and `handleAddItem`, as a class recording the
  callbacks it invokes.
- **Session storage** (`src/services/auth.service.js`, keys from
  `src/utils/constants.js`): a `Storage` class over a string map. The
  user record is encoded the way `JSON.stringify` writes it and decoded by
  a strict reader of that layout. Save/get/clear round trips are proved,
  and so is the independence of the user entry from the room entries.

Prices are exact `real`s, quantities `int`s, and `created_at` is an `int`
(milliseconds). Dialog answers (`confirm`), the random text behind
`generateUserId` and the values read from DOM fields are parameters.

The handlers treat quantities unevenly, and the model keeps each as
written. `updateQty` (page.js lines 175-185) never writes a quantity at
most 0: it deletes the item after confirmation instead. `addItem`
(page.js lines 156-173) does not check the quantity at all, and the
quantity field computes `parseInt(value) || 1` (page.js line 339), which
turns "-2" into -2. So an item can be inserted with a negative quantity.
`HomePage.AddItemForwardsAnyQuantity` and `HomePage.NegativeQuantityField`
state this behaviour.

## Model

| member | source | states |
|---|---|---|
| Currency.StripNonDigits | src/utils/currency.js:31 | `val.replace(/\D/g, '')` yields only digits and leaves an all-digit text unchanged |
| Currency.StripNonDigitsIdempotent | src/utils/currency.js:31 | stripping non-digits twice is the same as once |
| Currency.KeepDigitsAndCommas | src/utils/currency.js:62 | `replace(/[^\d,]/g, '')` keeps only digits and commas, never lengthening the text |
| Currency.ReplaceFirstAfterDigits | src/utils/currency.js:37 | `replace(".", ",")` changes only the first separator after the integer digits |
| Currency.CentsDigits | src/utils/currency.js:34 | `toFixed(2)` writes two digits denoting the value modulo 100 cents |
| Currency.InsertDotsIsGrouped | src/utils/currency.js:40 | the thousands regex puts a dot before every complete group of three digits counted from the right |
| Currency.GroupedStrip | src/utils/currency.js:40 | grouping only inserts dots: removing non-digits gives the digits back |
| Currency.FormatIsDisplay | src/utils/currency.js:29-44 | the formatter prints exactly the cents its input's digits denote, as "R$ " + grouped units + "," + two cent digits |
| Currency.FormatHasPrefix | src/utils/currency.js:43 | every formatted value starts with "R$ " and has at least seven characters |
| Currency.FormatDependsOnlyOnDigits | src/utils/currency.js:31 | two inputs with the same digits format identically |
| Currency.DisplayLayout | src/utils/currency.js:34-43 | the display has exactly one comma, three places from the end, two digits after it, and no leading zero group |
| Currency.FormatLayout | src/app/page.js:242-248 | the page's own copy of the formatter (the same steps) yields that layout for any input whose digits denote fewer than 10^15 cents |
| Currency.FormatNoDigits | src/utils/currency.js:27-34 | an input with no digits formats as "R$ 0,00" |
| Currency.FormatIdempotent | src/utils/currency.js:26 | formatting an already formatted value changes nothing and keeps its cents |
| Currency.ParseCurrency | src/utils/currency.js:59-63 | the parsed price is never negative |
| Currency.ParseWithoutComma | src/utils/currency.js:62 | without a comma the price is the integer its digits denote |
| Currency.ParseNoDigits | src/utils/currency.js:62 | text with no digits parses to 0 (NaN falls back to 0) |
| Currency.ParseDecimalComma | src/utils/currency.js:62 | "a,b" parses as the decimal a.b |
| Currency.OnlyFirstCommaCounts | src/utils/currency.js:62 | only the first comma becomes a decimal point: anything from a second comma on is ignored |
| Currency.ParseSeesOnlyDigitsAndCommas | src/utils/currency.js:62 | the parse depends only on the digits and commas of the text |
| Currency.ParseDisplay | src/utils/currency.js:54-55 | a displayed amount of n cents parses to n/100 |
| Currency.ParseFormatRoundTrip | src/utils/currency.js:29-63 | parsing the formatter's output gives the input's digits read as cents, divided by 100 |
| Currency.RoundCents | src/components/features/room/RankingCard.js:124 | `toFixed(2)` rounds to the nearest cent, halves upward |
| Currency.CentsOfToFixed2 | src/components/features/room/RankingCard.js:124 | the digits of `toFixed(2)` of n cents denote n |
| Currency.PrefilledPriceRoundTrip | src/components/features/room/RankingCard.js:124 | the edit form's pre-filled price reads back as the price rounded to cents, within half a cent |
| Decimal.NatToString | src/utils/currency.js:34 | a number's decimal text is all digits, denotes the number and has no leading zero |
| Decimal.NatToStringInjective | src/components/features/room/RankingCard.js:43 | different numbers have different decimal texts |
| Items.SumAppend | src/components/features/lobby/RoomCard.js:35 | the total of a concatenation is the sum of the totals |
| Items.MineSnoc | src/app/page.js:197 | filtering one more item appends it exactly when it belongs to the user |
| Items.MineEmpty | src/app/page.js:197 | a user's filtered list is empty exactly when the user owns no item |
| JsText.TrimStart | src/services/auth.service.js:71 | removes exactly the leading white space |
| JsText.TrimSpec | src/services/auth.service.js:71 | `trim` keeps a contiguous piece of the text, cuts only white space, and leaves none at either end |
| JsText.TrimIdempotent | src/services/auth.service.js:71 | trimming twice is trimming once |
| JsText.ParseInt | src/app/page.js:339 | `parseInt` yields a number only for text that contains a digit |
| JsText.ParseIntOfDecimal | src/components/features/room/RankingCard.js:58 | `parseInt` reads a number's decimal text, with or without a minus sign, back as that number |
| JsText.ParseIntOfDecimalPrefix | src/components/features/room/RankingCard.js:86 | `parseInt` stops at the first non-digit after the number |
| Reorder.FindIndex | src/app/page.js:198 | `findIndex` gives the first position holding the id, or -1 when there is none |
| Reorder.PlanReorder | src/app/page.js:197-204 | a swap always involves the pressed item and a neighbour, both from the user's own list |
| Reorder.UnknownIdNeverSwaps | src/app/page.js:198-204 | an id not in the user's list never swaps; "down" on a non-empty list then fails on `itemA.created_at` |
| Reorder.SwapStamps | src/app/page.js:210-213 | the map keeps the list's length and retimes only the two swapped items |
| Reorder.SwapStampsEffect | src/app/page.js:206-213 | the two items trade `created_at` values and nothing else changes |
| Reorder.NotRetimed | src/app/page.js:210-213 | items of other users are left as they are |
| Reorder.ReorderedSortedPermutation | src/app/page.js:210-214 | the new list is sorted by `created_at` and holds the same items as the retimed list |
| Reorder.ReorderKeepsStamps | src/app/page.js:206-214 | the swap keeps the multiset of timestamps of the room |
| Reorder.FilterSwapStamps | src/app/page.js:197-213 | filtering a user's items commutes with the timestamp swap |
| Reorder.FilterSorted | src/app/page.js:197 | the user's list of a sorted room is sorted |
| Reorder.SortNeighbourSwap | src/app/page.js:214 | re-sorting after swapping the stamps of two neighbours exchanges them in place |
| Reorder.MyListAfterSwap | src/app/page.js:196-215 | after swapping positions c and c + 1 the user's list is the old one with the two neighbours exchanged and their stamps traded |
| Reorder.PressSwapsNeighbours | src/app/page.js:196-215 | pressing UP or DOWN on position k with a neighbour t plans the swap of `myItems[k]` and `myItems[t]`, and the user's list afterwards is the old one with k and t exchanged, each carrying the other's timestamp |
| Reorder.SwapStampsSymmetric | src/app/page.js:210-213 | the map's result does not depend on which of the two items is `itemA`, as long as their ids differ |
| Reorder.OthersUnchanged | src/app/page.js:210-215 | every other user's list is unchanged by a reorder |
| Reorder.ArrowsMatchReorder | src/app/page.js:375-376 | an arrow is visible exactly when pressing it would swap; a hidden arrow would do nothing |
| StableSort.Filter | src/app/page.js:197 | `filter` keeps only matching elements and never lengthens the list |
| StableSort.SortByKeySorted | src/components/features/room/RankingView.js:49 | the reference sort orders the list by key |
| StableSort.SortByKeyPermutes | src/components/features/room/RankingView.js:49 | the reference sort is a permutation |
| StableSort.SortByKeyStable | src/components/features/room/RankingView.js:49 | elements with equal keys keep their relative order |
| StableSort.SortByKeyOfSorted | src/app/page.js:214 | sorting an already sorted list changes nothing |
| StableSort.FilterSortCommute | src/app/page.js:197-214 | filtering then sorting equals sorting then filtering |
| StableSort.SortedCopy | src/components/features/room/RankingView.js:49 | `sort` on a copy returns the reference stable sort of the list |
| StableSort.SortInPlace | src/app/page.js:214 | the in-place insertion sort leaves the array equal to the reference stable sort of its old contents |
| RankingView.Groups | src/components/features/room/RankingView.js:35-48 | there is one group per distinct user |
| RankingView.AccStep | src/components/features/room/RankingView.js:36-47 | one step of the reduce keeps every map entry equal to that user's group so far |
| RankingView.ValuesAreGroups | src/components/features/room/RankingView.js:35 | `Object.values` of the final map, in insertion order, is the list of groups |
| RankingView.GroupByUser | src/components/features/room/RankingView.js:35-48 | the loop over the map computes the groups |
| RankingView.RankPlayers | src/components/features/room/RankingView.js:35-49 | the method computes the ranking: the groups stably sorted by total, largest first |
| RankingView.GroupsSnocNew | src/components/features/room/RankingView.js:37-44 | an item of a new user adds a group at the end, starting from total 0 |
| RankingView.GroupsSnocKnown | src/components/features/room/RankingView.js:45-46 | an item of a known user adds its line total to that user's group only |
| RankingView.GroupCount | src/app/page.js:395-400 | there are as many groups as distinct users |
| RankingView.ItemInExactlyOneGroup | src/app/page.js:396-398 | every item lies in its user's group and in no other |
| RankingView.GroupContents | src/components/features/room/RankingView.js:37-46 | a group holds exactly its user's items in order, its total is their sum, and its name is the first item's `user_name` |
| RankingView.FirstAppearanceOrder | src/components/features/room/RankingView.js:35-36 | groups come in the order of each user's first item |
| RankingView.RankingSorted | src/components/features/room/RankingView.js:49 | the ranking is a permutation of the groups in non-increasing total order |
| RankingView.RankingTiesKeepOrder | src/app/page.js:400 | players with equal totals keep their first-appearance order |
| RankingView.RankingTotalsSum | src/components/features/room/RankingView.js:45 | the players' totals add up to the room total |
| RoomScreen.ViewTotal | src/components/features/room/RoomScreen.js:74-79 | an empty room totals 0, and non-negative lines give a non-negative total |
| RoomScreen.MyTabTotal | src/app/page.js:422-425 | in the "minha" view the dock shows the sum of the user's own items |
| RoomScreen.OtherViewTotal | src/components/features/room/RoomScreen.js:78 | in any other view the total is the whole room's |
| RoomScreen.MyTabIsRankingTotal | src/components/features/room/RoomScreen.js:74-77 | the "my tab" total equals the user's total in the ranking, and is 0 for a user without items |
| RoomScreen.GroupOfUser | src/app/page.js:396-397 | a user has a group exactly when they own an item, and that group's total is their items' sum |
| RoomScreen.ClearTabCallback | src/components/features/room/RoomScreen.js:110 | the clear-tab action is passed exactly in the "my tab" view |
| RoomCard.UserIdList | src/components/features/lobby/RoomCard.js:34 | `items.map(i => i.user_id)` keeps the order and length |
| RoomCard.ParticipantsAreUsers | src/app/page.js:275 | the set of user ids has as many members as there are distinct users |
| RoomCard.ParticipantsBounds | src/components/features/lobby/RoomCard.js:34 | there are at most as many participants as items, and none only for an empty room |
| RoomCard.ParticipantsAreRanked | src/components/features/lobby/RoomCard.js:34 | the participant count equals the number of ranked players |
| RoomCard.RoomTotalAgrees | src/components/features/lobby/RoomCard.js:35 | the card's room total equals the room screen's total and the sum of the ranking |
| HomePage.AddItemWrite | src/app/page.js:156-173 | an insert is sent exactly when the name is non-empty and the parsed price positive, carrying that price and the form's quantity |
| HomePage.UpdateQtyWrites | src/app/page.js:175-185 | a quantity at most 0 deletes after confirmation and never writes that quantity; a positive one is written as is |
| HomePage.SaveEditWrite | src/app/page.js:187-194 | the name and price are written exactly when the name is non-empty and the price positive |
| HomePage.QtyFieldInput | src/app/page.js:339 | the quantity field is never 0: NaN becomes 1 and any non-zero number is kept |
| HomePage.RoomPage.constructor | src/app/page.js:27-36 | the page starts with an empty form, price "R$ 0,00", quantity 1, nothing edited and no writes |
| HomePage.RoomPage.OnPriceInput | src/app/page.js:333 | the price field holds the formatted text of what was typed, and nothing else changes |
| HomePage.RoomPage.OnQtyInput | src/app/page.js:339 | the quantity field holds the parsed quantity, and nothing else changes |
| HomePage.RoomPage.AddItem | src/app/page.js:156-173 | the insert is sent and the form reset when accepted; otherwise nothing changes |
| HomePage.RoomPage.SubmitInsert | src/app/page.js:159-170 | sending the insert appends it to the writes and resets the form |
| HomePage.RoomPage.UpdateQty | src/app/page.js:175-185 | the writes of `updateQty` are appended and the page state is otherwise unchanged |
| HomePage.RoomPage.SaveEdit | src/app/page.js:187-194 | an accepted edit is written and closes the editor; a rejected one changes nothing |
| HomePage.RoomPage.Reorder | src/app/page.js:196-219 | a swap replaces the list by the retimed, re-sorted list and writes both stamps; a boundary or unknown id changes nothing |
| HomePage.RoomPage.ApplySwap | src/app/page.js:206-218 | the local list becomes the retimed, re-sorted list and the two timestamp writes are sent |
| HomePage.FormattedPriceAccepted | src/app/page.js:157-158 | a price typed into the field is read as its cents / 100, and accepted exactly when its digits are not all zero |
| HomePage.AddItemForwardsAnyQuantity | src/app/page.js:158-166 | with a name and a non-zero price the insert carries whatever quantity the form holds, even a negative one |
| HomePage.NegativeQuantityField | src/app/page.js:339 | typing "-2" in the quantity field stores -2 |
| RankingCard.PositionLabel | src/components/features/room/RankingCard.js:43-47 | the first three places get a medal and class "pos-1".."pos-3"; later places get their number followed by "º" and class "pos-n" |
| RankingCard.PositionNumberReadsBack | src/components/features/room/RankingCard.js:43 | past the podium the badge shows the 1-based position |
| RankingCard.PositionLabelInjective | src/components/features/room/RankingCard.js:43-47 | different positions get different badges |
| RankingCard.QtyFromField | src/components/features/room/RankingCard.js:57-58 | an empty quantity field reads as 0, any other as `parseInt`, and text without digits as NaN |
| RankingCard.SaveEditCalls | src/components/features/room/RankingCard.js:54-74 | a quantity at most 0 deletes after confirmation; NaN or a positive quantity updates name, parsed price and quantity |
| RankingCard.AddItemCall | src/components/features/room/RankingCard.js:80-95 | `onAddItem` is called exactly when the name is non-empty and the price positive; otherwise the alert is shown |
| RankingCard.Card.constructor | src/components/features/room/RankingCard.js:38-40 | a card starts with no item being edited and the add form closed |
| RankingCard.Card.HandleSaveEdit | src/components/features/room/RankingCard.js:54-74 | the calls are made, and the editor closes exactly when a call was made |
| RankingCard.Card.HandleAddItem | src/components/features/room/RankingCard.js:80-95 | the call or alert is made, and the add form closes exactly when the item was added |
| RankingCard.EditPriceField | src/components/features/room/RankingCard.js:124 | the edit form's price field reads back as the price rounded to cents |
| RankingCard.SaveUnchangedForm | src/components/features/room/RankingCard.js:121-130 | saving an untouched edit form updates the item with its own name, quantity and cent-rounded price |
| RankingCard.QtyFieldReadsNumber | src/components/features/room/RankingCard.js:130 | the pre-filled quantity reads back as the item's quantity |
| RankingCard.AddAcceptsFormattedPrice | src/components/features/room/RankingCard.js:85-89 | with a formatted price the item is added exactly when a name is given and the digits are not all zero |
| UserJson.EscapeChar | src/services/auth.service.js:17 | `JSON.stringify` escapes exactly quotes, backslashes and control characters |
| UserJson.EncodeUserInjective | src/services/auth.service.js:17 | different users are stored as different texts |
| UserJson.ReadQuoted | src/services/auth.service.js:33 | a quoted, escaped string reads back as itself, leaving the rest of the text |
| UserJson.UnescapeAll | src/services/auth.service.js:33 | unescaping undoes escaping, up to the closing quote |
| UserJson.DecodeEncodeUser | src/services/auth.service.js:16-34 | the stored text of a user reads back as that user |
| AuthService.Storage.SetItem | src/services/auth.service.js:17 | `setItem` maps the key to the value and leaves other keys alone |
| AuthService.Storage.RemoveItem | src/services/auth.service.js:43 | `removeItem` removes only that key |
| AuthService.Storage.GetItem | src/services/auth.service.js:32 | `getItem` is null exactly when the key is absent, and otherwise the value stored under it |
| AuthService.UserFromText | src/services/auth.service.js:32-33 | no user for a null or empty entry; otherwise the user the text decodes to, or the text itself when it is not in the stored layout |
| AuthService.GetUser | src/services/auth.service.js:31-34 | `getUser`, reading its entry through `getItem`, finds what the store's entries hold under "fz_user" |
| AuthService.RoomFromTexts | src/services/auth.service.js:122-126 | a room exactly when both values are non-null and non-empty, holding those values |
| AuthService.GetCurrentRoom | src/services/auth.service.js:118-127 | `getCurrentRoom`, reading both entries through `getItem`, finds what the store's entries hold under the two room keys |
| AuthService.UserIn | src/services/auth.service.js:31-34 | no user when the entry is absent or empty; otherwise the decoded user |
| AuthService.RoomIn | src/services/auth.service.js:118-127 | a room exactly when both entries are present and non-empty, holding those entries |
| AuthService.SaveUser | src/services/auth.service.js:16-18 | the user is stored under "fz_user", `getUser` then returns it, and the current room is unchanged |
| AuthService.ClearUser | src/services/auth.service.js:42-44 | the user entry is removed, `getUser` returns null, and the current room is unchanged |
| AuthService.Substr | src/services/auth.service.js:55 | `substr(start, length)` is the piece of the text at `start` of exactly min(length, remaining) characters, empty past the end |
| AuthService.GenerateUserId | src/services/auth.service.js:54-56 | the id is "u_" followed by at most nine characters |
| AuthService.CreateUser | src/services/auth.service.js:68-74 | a new user has the trimmed name, a "u_" id and is not an admin |
| AuthService.ToggleAdminMode | src/services/auth.service.js:87-91 | the user with the new flag is stored, returned and read back |
| AuthService.SaveCurrentRoom | src/services/auth.service.js:102-105 | both entries are stored; `getCurrentRoom` returns them when both are non-empty; the user is unchanged |
| AuthService.ClearCurrentRoom | src/services/auth.service.js:135-138 | both entries are removed, `getCurrentRoom` returns null, and the user is unchanged |
| AuthService.SaveThenGetUser | src/services/auth.service.js:16-34 | after `saveUser(u)`, `getUser()` returns u whatever was stored before |
| AuthService.ClearThenGetUser | src/services/auth.service.js:31-44 | after `clearUser()`, `getUser()` returns null |
| AuthService.SaveThenGetRoom | src/services/auth.service.js:102-127 | after `saveCurrentRoom(id, name)`, `getCurrentRoom()` returns them when both are non-empty and null otherwise |
| AuthService.ClearThenGetRoom | src/services/auth.service.js:118-138 | after `clearCurrentRoom()`, `getCurrentRoom()` returns null |
| AuthService.RoomOpsKeepUser | src/services/auth.service.js:102-138 | saving or clearing the room leaves the stored user as it was |
| AuthService.UserOpsKeepRoom | src/services/auth.service.js:16-44 | saving or clearing the user leaves the current room as it was |
| AuthService.ThemeUntouched | src/utils/constants.js:10-22 | saving or clearing the user or the room leaves what `getItem` returns for "fz_theme" unchanged |
| AuthService.CreatedUserReadsBack | src/services/auth.service.js:68-74 | a created and saved user is what `getUser` returns |

## Left out

- The Supabase client, the realtime subscription and the refetch after each write (`fetchItems`) are left out. Writes are recorded in `writes` (page) or `calls` (ranking card) instead of being sent.
- Each `await` is treated as completing at once. Concurrent writes, partial failure of the two reorder writes and stale responses are not modelled.
- Reorder.PressSwapsNeighbours: assumes the two neighbours have different `created_at` values. When they are equal, trading them changes no timestamp and the stable sort keeps the order, so the press visibly does nothing; the lemma does not state that case.
- There is no rollback in reorder: `originalItems` is computed but never used, and the model does the same.
- Floating point is left out: prices are exact reals, so `preco * qtd` and the reduce totals are not rounded. `toFixed(2)` is modelled as rounding half up, which does not capture binary representation.
- The `Intl.NumberFormat` BRL display (`BRL.format`) is presentational and is left out.
- Currency.FormatCurrencyInput: requires the input's digits to denote fewer than 10^15 cents. Beyond that, `(v / 100).toFixed(2)` is no longer exact in floating point (and prints exponent notation from 10^21).
- Currency.ParseCurrency: models `parseFloat` on the digits-and-dot text the replacements leave. Exponents, "Infinity" and digit strings past float precision are not modelled.
- JsText.ParseInt: is exact for arbitrarily long digit strings, whereas JavaScript loses precision past 2^53.
- `created_at` is an integer in milliseconds. `new Date(...)` parsing of timestamp text is left out, as are invalid dates (NaN comparisons).
- `confirm`, `alert` and `Math.random` are parameters or recorded calls. `document.getElementById(...).value` becomes a handler parameter.
- JavaScript objects keep integer-like keys ahead of other keys. The model's groups follow first appearance for every key; ids are "u_" strings, so the two agree for ids the app creates.
- AuthService.UserIn: decodes only the layout `JSON.stringify` writes for a `{id, name, isAdmin}` record. Any other stored text is reported as `Other` and not parsed, and `\u` escapes of surrogate halves are not decoded.
- The page's inline `formatCurrencyInput` (page.js lines 242-248) performs the same steps as the one in currency.js, so the model uses a single definition for both.
- RankingView.NameOf: is "" for a user without items. Such a user never forms a group, so the value is never shown.
- Rendering, animation, the theme toggle, the login and room screens, room creation, passwords and the admin delete-user action are presentation or are outside the modelled logic.
- The room page's item list is given to the constructor rather than starting empty and being filled by the first fetch.
