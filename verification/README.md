# Storefront customization, cart and menu logic in Dafny

This project models the pure logic of a restaurant storefront's three core React
components: the menu item card with its customization modal
(`MenuItemCard.tsx`), the cart page (`Cart.tsx`) and the menu page (`Menu.tsx`).
The components' `useState` values become an immutable `Session` record. Each
click handler becomes a pure transition that returns the next session and the
callbacks it invokes (`onAddToCart`, `onUpdateQuantity`, `updateQuantity`,
`removeFromCart`, `clearCart`, …) as `Request` values. Prices are whole pesos
(`int`).

Modules, one per concern:

- `Seqs` (seqs.dfy): `Option`, `Filter` (`Array.prototype.filter`), `FirstIndex`
  (`findIndex`/`find`), and the subsequence relation used to state "order is kept".
- `Catalog` (catalog.dfy): `Variation`, `AddOn`, `MenuItem`, `Category`, the cart
  line fields the components read (`CartItem`, `LineAddOn`), and `Request`.
- `Pricing` (pricing.dfy): `calculatePrice` and its monotonicity.
- `Selection` (selection.dfy): `updateAddOnQuantity`, the keyed upsert/delete of
  selected add-ons, with its well-formedness invariant and put-get law.
- `Expansion` (expansion.dfy): the `flatMap` that repeats each add-on `quantity`
  times with the count cleared.
- `Grouping` (grouping.dfy): the `reduce` that groups add-ons by category.
- `Card` (card.dfy): the card and modal as a state machine.
- `Decimal` (decimal.dfy): printing of the `xN` count, with its parser.
- `Cart` (cart.dfy): line presentation, add-on summary and the requests of the
  line controls.
- `Menu` (menu.dfy): the popular section, the category sections and each card's
  quantity.

A variation's price is added to the base price (`MenuItemCard.tsx:27`, and
`:229` in the modal), and `Pricing.SizedPrice` does the same.

## Model

| member | source | states |
|---|---|---|
| Pricing.CalculatePrice | src/components/MenuItemCard.tsx:24-33 | The forEach loop returns base price (plus the variation's price when one is selected) plus Σ price × quantity over the selected add-ons. With no variation and no add-ons it is exactly the base price. |
| Pricing.AddOnSumSetQuantity | src/components/MenuItemCard.tsx:29-31 | Setting one entry's quantity to q changes the add-on sum by that add-on's price × (q − old quantity). |
| Pricing.RaiseQuantityNeverLowersPrice | src/components/MenuItemCard.tsx:29-31 | With non-negative add-on prices, raising any one selected add-on's quantity never lowers the price. |
| Pricing.AppendNeverLowersPrice | src/components/MenuItemCard.tsx:78-79 | Appending a new add-on with quantity q raises the price by exactly price × q, whatever the price, so it never lowers it when the price is ≥ 0. |
| Selection.UpdateAddOnQuantity | src/components/MenuItemCard.tsx:63-82 | q = 0 keeps the entries with another id, each as often as before, and drops those with this id, as a subsequence, and is a no-op when the id is absent. q > 0 with an existing id changes only that index, to quantity q, keeping the stored add-on and the length. q > 0 with a new id appends `(addOn, q)` at the end. |
| Selection.UpdatePreservesWellFormed | src/components/MenuItemCard.tsx:63-81 | Every update maps a selection with unique ids and quantities ≥ 1 to another such selection. |
| Selection.RemoveDeletesFoundEntry | src/components/MenuItemCard.tsx:67-70 | On a well-formed selection, quantity 0 removes exactly the entry `findIndex` found and keeps all the others in order. |
| Selection.UpdateThenDisplay | src/components/MenuItemCard.tsx:63-81 | Put-get law, for every selection: after setting an add-on to q, the displayed count `find(...)?.quantity \|\| 0` for its id is q. |
| Selection.UpdateKeepsOtherDisplay | src/components/MenuItemCard.tsx:63-81 | For every selection, setting one add-on's quantity leaves the displayed count of every other add-on id unchanged. |
| Selection.DisplayedQuantity | src/components/MenuItemCard.tsx:273 | The count shown is the quantity of the first entry with the add-on's id, or 0 when no entry has it. |
| Expansion.Expand | src/components/MenuItemCard.tsx:45-47 | The expansion has Σ quantities entries. Every entry has `quantity` undefined. |
| Expansion.ExpandConcat | src/components/MenuItemCard.tsx:45-47 | The expansion of a concatenation is the concatenation of the expansions, so selection order is kept. |
| Expansion.ExpandAt | src/components/MenuItemCard.tsx:45-47 | The copies of entry k come after those of the entries before it and before those of the entries after it. |
| Expansion.ExpandPriceSum | src/components/MenuItemCard.tsx:45-47 | The prices of the expanded entries add up to the add-on part of `calculatePrice`. |
| Expansion.ExpandCount | src/components/MenuItemCard.tsx:45-47 | Each add-on occurs in the expansion exactly as many times as its selected units. |
| Expansion.ExpandCountOfEntry | src/components/MenuItemCard.tsx:45-47 | With unique ids, the add-on of entry k occurs exactly `quantity` times. |
| Grouping.GroupingPartitions | src/components/MenuItemCard.tsx:84-91 | The reduce partitions the add-ons: keys are distinct, and each group is exactly the add-ons of its category in source order. No group is empty, every add-on's category has a group, and groups appear in first-seen order. |
| Grouping.GroupingPreservesCount | src/components/MenuItemCard.tsx:84-91 | The groups hold exactly as many add-ons as the item has. |
| Grouping.GroupStepPartitions | src/components/MenuItemCard.tsx:85-90 | One reduce step (create the key or push onto it) keeps the partition property for the extended list. |
| Grouping.GroupStep | src/components/MenuItemCard.tsx:85-90 | One reduce step keeps every existing key in place. It adds a key, at the end and holding just the add-on, exactly when no group has the add-on's category. Otherwise it appends the add-on to its category's group. |
| Grouping.GroupByCategory | src/components/MenuItemCard.tsx:84-91 | The reduce makes at most one group per add-on, and no groups only when there are no add-ons. |
| Card.InitialSession | src/components/MenuItemCard.tsx:18-22 | A card starts closed with no add-ons. The variation is the first variation when there is one, and none otherwise. The initial session satisfies the session invariant. |
| Card.CardControl | src/components/MenuItemCard.tsx:152-182 | Sold out iff unavailable. Add button iff available and quantity 0, labelled "Customize" iff the item has variations or add-ons. Stepper otherwise. |
| Card.Handle | src/components/MenuItemCard.tsx:35-61 | Each handler makes at most one callback. The plain add sends `onAddToCart(item, 1)`, the card's "+" sends quantity + 1, its "−" sends quantity − 1 from a positive quantity, and confirm sends `onAddToCart(item, 1, variation, expanded add-ons)`. Only the add button opens the modal and only X and confirm close it. Only a size choice changes the variation. Only confirm, which empties them, and the add-on buttons change the selected add-ons. |
| Card.ListedIffAddOn | src/components/MenuItemCard.tsx:237-247 | The modal lists exactly the item's add-ons, and shows the add-on section iff the item has any. |
| Card.CountOrOne | src/components/MenuItemCard.tsx:264-266 | `current?.quantity \|\| 1` equals the displayed count whenever that is at least 1, and is 1 when the displayed count is 0. |
| Card.Step | src/components/MenuItemCard.tsx:160-314 | A click on a control that is not on screen changes nothing and requests nothing. |
| Card.StepPreservesInvariant | src/components/MenuItemCard.tsx:35-82 | Every click keeps the session invariant: unique add-on ids, quantities ≥ 1, add-ons from the item, variation from the item. |
| Card.ReachableSessionsKeepInvariant | src/components/MenuItemCard.tsx:19-82 | Every session reached by any run of clicks from a session satisfying the invariant, the initial one included, satisfies it too. |
| Card.ClickAddOpensIffCustomizable | src/components/MenuItemCard.tsx:35-41 | "Add" opens the modal iff the item has variations or add-ons. Otherwise it only requests `onAddToCart(item, 1)`. |
| Card.ConfirmSendsDisplayedPrice | src/components/MenuItemCard.tsx:43-51 | Confirm requests quantity 1 with the current variation and exactly `Expand(selectedAddOns)`, every copy without a count, then closes and clears the add-ons, keeping the variation. The sized price plus the sent add-ons' prices equals the displayed price. |
| Card.ConfirmedAddOnsPrintPlain | src/components/MenuItemCard.tsx:45-48 | The add-ons confirm sends carry no count, so the cart summary lists their plain names, one per selected unit. |
| Card.CloseKeepsSelection | src/components/MenuItemCard.tsx:199-201 | The X closes the modal and keeps the variation and the add-ons. |
| Card.AddAddOnSelectsOne | src/components/MenuItemCard.tsx:287-289 | "Add" on an add-on not yet chosen makes its displayed count 1 and leaves every other add-on's count unchanged. |
| Card.CardRequestsNeverNegative | src/components/MenuItemCard.tsx:53-61 | For any card quantity, every quantity request targets the item and is quantity ± 1. "+" on the stepper requests exactly `UpdateQuantity(item.id, quantity + 1)`. "−" never requests a negative quantity: it sends nothing when quantity ≤ 0 and quantity − 1 otherwise. From a quantity ≥ 0 no request is negative. |
| Card.AddOnPlusRaisesCount | src/components/MenuItemCard.tsx:273-279 | On a selected add-on, "+" raises the displayed count by exactly one. |
| Card.AddOnMinusLowersCount | src/components/MenuItemCard.tsx:265-273 | On a selected add-on, "−" lowers the displayed count by exactly one, so at count 1 the add-on is dropped and shows 0. |
| Card.AddOnPlusKeepsOtherCounts | src/components/MenuItemCard.tsx:278-279 | An add-on's "+" leaves every other add-on's displayed count as it was. |
| Card.AddOnMinusKeepsOtherCounts | src/components/MenuItemCard.tsx:265-266 | An add-on's "−" leaves every other add-on's displayed count as it was. |
| Card.AddOnPlusNeverLowersPrice | src/components/MenuItemCard.tsx:275-293 | With non-negative prices, the add-on "Add" and "+" buttons never lower the modal's price. |
| Decimal.DecimalString | src/components/Cart.tsx:74 | The printed count is a non-empty string of digits with no leading zero. |
| Decimal.ParseDecimalString | src/components/Cart.tsx:74 | Reading the printed count back gives the number. |
| Cart.AddOnLabel | src/components/Cart.tsx:72-76 | The label starts with the add-on's name. When the count is defined and > 1, the rest is " x" followed by the count. |
| Cart.Join | src/components/Cart.tsx:76 | `join`: "" for no parts, the part itself for one, and otherwise the parts' lengths plus one separator per gap. |
| Cart.JoinPlacesParts | src/components/Cart.tsx:76 | The joined string holds part i at its offset, the separator right after every part but the last, and ends with the last part, so its contents are fixed. |
| Cart.AddOnSummary | src/components/Cart.tsx:72-76 | The text after "Add-ons: " is empty for no add-ons. Otherwise it holds each add-on's label in line order, separated by ", ", and ends with the last label. |
| Cart.LabelPlainIffUncounted | src/components/Cart.tsx:72-76 | A label is the plain name iff the add-on carries no count above 1. |
| Cart.LabelCountReadsBack | src/components/Cart.tsx:73-74 | For a count above 1, the text after "name x" is all digits and reads back as the count. |
| Cart.ExpandedSummaryListsNames | src/components/Cart.tsx:72-76 | Lines filled by the customization flow summarise to their plain names joined by ", ". An add-on chosen N times shows its name N times. |
| Cart.ViewLine | src/components/Cart.tsx:66-100 | Size line iff a variation is present. Add-on line iff add-ons are present and non-empty. Unit price is `totalPrice`, and the subtotal is unit price × quantity. |
| Cart.ConfirmedLineView | src/components/Cart.tsx:66-79 | A line carrying the size and expanded add-ons that the modal sent shows "Size:" iff a size was chosen. It shows "Add-ons:" iff at least one add-on unit was selected, listing one plain name per unit. |
| Cart.ViewCart | src/components/Cart.tsx:24-42 | An empty cart shows only the empty state. Otherwise every line is shown, in order, with the owner's total. |
| Cart.CartRequest | src/components/Cart.tsx:24-126 | An empty cart offers only "Browse Menu". "Clear All" requests `clearCart()` and checkout requests `onCheckout`. Line controls exist exactly for the listed lines. A quantity update comes exactly from a listed line's "−" or "+", and a removal exactly from its bin. |
| Cart.LineRequestsTargetShownLine | src/components/Cart.tsx:84-107 | Line requests name a shown line's id. "−" and "+" request `updateQuantity` with its displayed quantity − 1 and + 1, with no lower guard on "−". The bin requests `removeFromCart` for the line's id. |
| Cart.MinusAtOneRequestsZero | src/components/Cart.tsx:85 | "−" on a line holding one unit requests quantity 0. |
| Menu.PopularItems | src/components/Menu.tsx:15 | The items with `popular` true, in catalogue order, each as many times as it occurs in the catalogue. |
| Menu.PopularSection | src/components/Menu.tsx:57-69 | No section iff no popular item. Otherwise it holds the first min(3, n) popular items, in order. |
| Menu.CategoryItems | src/components/Menu.tsx:90 | The items whose category is the given id, and only those, in catalogue order. |
| Menu.CategoryItemsCount | src/components/Menu.tsx:90 | Each item of the category occurs as many times as in the catalogue, and any other item not at all. |
| Menu.CardQuantity | src/components/Menu.tsx:70-76 | The quantity of the first cart line whose id is the item id, or 0 when there is none. |
| Menu.Sections | src/components/Menu.tsx:89-126 | At most one section per listed category entry, so a category listed twice can get two. Each section's category is one of the listed categories. |
| Menu.Cards | src/components/Menu.tsx:111-121 | One card per item, in order, each given its cart quantity. |
| Menu.ViewMenu | src/components/Menu.tsx:56-126 | The page has a popular section exactly when one is due, holding the popular section's items, each card given `CardQuantity`. The category sections are `Sections`. |
| Menu.EveryPageCardCarriesCartQuantity | src/components/Menu.tsx:70-120 | Every card on the page, popular or in a category section, is given `CardQuantity` for its item. |
| Menu.SectionsAreCategoryFilters | src/components/Menu.tsx:89-92 | Every section is non-empty and its cards show exactly its category's items, in catalogue order. |
| Menu.SectionsFollowCategoryOrder | src/components/Menu.tsx:89-92 | The sections' categories are a subsequence of `categories`: page order follows the category list. |
| Menu.SectionIffCategoryHasItems | src/components/Menu.tsx:89-92 | A category gets a section iff it is listed and has at least one item. |
| Menu.ItemShownIffCategoryListed | src/components/Menu.tsx:89-92 | An item appears in a category section iff it is in the catalogue and some listed category has its category id. |
| Menu.SectionCardsCarryCartQuantity | src/components/Menu.tsx:111-120 | Every card in a category section is given `CardQuantity` for its item. |

## Left out

- The cart ledger: `addToCart` merging, `updateQuantity`, `removeFromCart`, `clearCart` and `getTotalPrice`. These live in the components' owner, which is not part of this model. Calls to them appear only as `Request` values. The total the cart page shows is an input.
- `src/types` is not part of this model. The records hold only the fields the three components read.
- `useCategories` is not part of this model. `categories` is an input sequence.
- `src/hooks/useTheme.ts`, `Header.tsx` and `Hero.tsx`: theme storage, media queries, document class toggling and static markup. They are I/O plumbing with no logic in the core.
- DOM side effects: `scrollIntoView` in the category navigation, and the image `onError`/`onLoad` handlers.
- JavaScript numbers: prices and quantities are mathematical integers. The cart total's `parseFloat(...).toFixed(2)` formatting, `NaN` and fractional values are not modelled.
- Selection.UpdateAddOnQuantity: takes the quantity as a `nat`. Every caller in the card passes 1, count + 1 or `(count || 1) − 1`, and none of these can be negative. A negative argument is therefore not modelled.
- Grouping.GroupByCategory: the record's key order is taken to be insertion order. JavaScript lists integer-like keys (a category named "1") first, in numeric order. A category named like an `Object.prototype` member ("constructor") would make `groups[category].push` fail. Neither case is modelled.
- React state batching: each handler's state updates are applied together after the handler returns its requests. None of the handlers reads state after setting it, so this matches the component.
- Presentation text: class names, "N sizes available" and "N add-ons available", "starting", "Free" / "₱N each", capitalised category headings, and the radio button's `checked` flag.
- Optional arrays (`variations?`, `addOns?`, `selectedAddOns?`): a menu item's arrays are plain sequences, since every path treats an absent array like an empty one. A cart line's `selectedAddOns` and a line add-on's `quantity` stay optional because the cart distinguishes them.
