/**
 * The storefront's records as the components read them, and the callbacks
 * they issue to the cart owner. Prices are whole pesos. Optional arrays of the
 * catalogue (`variations?`, `addOns?`) are plain sequences: every path of the
 * components treats an absent array exactly like an empty one.
 */
module Catalog {
  import opened Seqs

  type Id = string

  /** A size choice; `price` is added to the item's base price. */
  datatype Variation = Variation(id: Id, name: string, price: int)

  /** An optional extra, grouped for display by `category`. */
  datatype AddOn = AddOn(id: Id, name: string, price: int, category: string)

  datatype MenuItem = MenuItem(
    id: Id,
    name: string,
    description: string,
    basePrice: int,
    available: bool,
    popular: bool,
    category: Id,
    variations: seq<Variation>,
    addOns: seq<AddOn>,
    image: Option<string>)

  datatype Category = Category(id: Id, name: string, icon: string)

  /**
   * An add-on as stored on a cart line: the add-on's fields plus an optional
   * `quantity`, which the customization flow sets to `undefined` (None).
   */
  datatype LineAddOn = LineAddOn(addOn: AddOn, quantity: Option<int>)

  /** The fields of a cart line that the cart and menu read. */
  datatype CartItem = CartItem(
    id: Id,
    name: string,
    selectedVariation: Option<Variation>,
    selectedAddOns: Option<seq<LineAddOn>>,
    totalPrice: int,
    quantity: int)

  /**
   * A call into the component's owner. `AddToCart` carries `onAddToCart`'s
   * optional arguments as options (None for an argument not passed).
   */
  datatype Request =
    | AddToCart(item: MenuItem, quantity: int, variation: Option<Variation>, addOns: Option<seq<LineAddOn>>)
    | UpdateQuantity(id: Id, quantity: int)
    | RemoveFromCart(id: Id)
    | ClearCart
    | ContinueShopping
    | Checkout
}
