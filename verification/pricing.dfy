/**
 * The unit price shown in the customization modal and sent with a confirmed
 * line (`calculatePrice` of the menu item card).
 */
module Pricing {
  import opened Seqs
  import opened Catalog

  /** An add-on chosen in the modal together with how many times it was chosen. */
  datatype Selected = Selected(addOn: AddOn, quantity: nat)

  /** Reference definition of the add-on part of the price: the sum of price × quantity. */
  function AddOnSum(sel: seq<Selected>): int
  {
    if |sel| == 0 then 0 else sel[0].addOn.price * sel[0].quantity + AddOnSum(sel[1..])
  }

  /** Base price, adjusted by the selected variation's price when there is one. */
  function SizedPrice(item: MenuItem, variation: Option<Variation>): int
  {
    match variation
    case None => item.basePrice
    case Some(v) => item.basePrice + v.price
  }

  /** The price the modal displays for a selection. */
  function UnitPrice(item: MenuItem, variation: Option<Variation>, sel: seq<Selected>): int
  {
    SizedPrice(item, variation) + AddOnSum(sel)
  }

  /** Every selected add-on has a non-negative unit price. */
  predicate NonNegativePrices(sel: seq<Selected>)
  {
    forall i :: 0 <= i < |sel| ==> sel[i].addOn.price >= 0
  }

  /**
   * `calculatePrice`: start from the base price, replace it by base plus the
   * variation's price when a variation is selected, then add each selected
   * add-on's price times its quantity, in selection order.
   */
  method CalculatePrice(item: MenuItem, variation: Option<Variation>, sel: seq<Selected>) returns (price: int)
    ensures price == UnitPrice(item, variation, sel)
    ensures variation.None? && sel == [] ==> price == item.basePrice
    ensures variation.Some? ==> price == item.basePrice + variation.value.price + AddOnSum(sel)
  {
    price := item.basePrice;
    if variation.Some? {
      price := item.basePrice + variation.value.price;
    }
    var i := 0;
    while i < |sel|
      invariant 0 <= i <= |sel|
      invariant price + AddOnSum(sel[i..]) == UnitPrice(item, variation, sel)
    {
      assert sel[i..][1..] == sel[i + 1..];
      price := price + sel[i].addOn.price * sel[i].quantity;
      i := i + 1;
    }
    assert sel[i..] == [];
  }

  /** The add-on sum splits over concatenated selections. */
  lemma {:induction false} AddOnSumConcat(a: seq<Selected>, b: seq<Selected>)
    ensures AddOnSum(a + b) == AddOnSum(a) + AddOnSum(b)
    decreases |a|
  {
    if |a| == 0 {
      assert a + b == b;
    } else {
      assert (a + b)[0] == a[0];
      assert (a + b)[1..] == a[1..] + b;
      AddOnSumConcat(a[1..], b);
    }
  }

  /** Changing one entry's quantity changes the sum by that add-on's price times the change. */
  lemma {:induction false} AddOnSumSetQuantity(sel: seq<Selected>, k: nat, q: nat)
    requires k < |sel|
    ensures AddOnSum(sel[k := Selected(sel[k].addOn, q)])
         == AddOnSum(sel) + sel[k].addOn.price * (q - sel[k].quantity)
    decreases |sel|
  {
    var sel' := sel[k := Selected(sel[k].addOn, q)];
    if k == 0 {
      assert sel'[1..] == sel[1..];
      assert sel'[0].addOn.price * q - sel[0].addOn.price * sel[0].quantity
          == sel[0].addOn.price * (q - sel[0].quantity);
    } else {
      assert sel'[1..] == sel[1..][k - 1 := Selected(sel[k].addOn, q)];
      AddOnSumSetQuantity(sel[1..], k - 1, q);
    }
  }

  /**
   * With non-negative add-on prices, raising the quantity of any one selected
   * add-on never lowers the computed price.
   */
  lemma RaiseQuantityNeverLowersPrice(item: MenuItem, variation: Option<Variation>, sel: seq<Selected>, k: nat, q: nat)
    requires NonNegativePrices(sel)
    requires k < |sel| && q >= sel[k].quantity
    ensures UnitPrice(item, variation, sel) <= UnitPrice(item, variation, sel[k := Selected(sel[k].addOn, q)])
  {
    AddOnSumSetQuantity(sel, k, q);
    assert sel[k].addOn.price * (q - sel[k].quantity) >= 0;
  }

  /** Appending a new add-on with a positive quantity and a non-negative price never lowers the price. */
  lemma AppendNeverLowersPrice(item: MenuItem, variation: Option<Variation>, sel: seq<Selected>, a: AddOn, q: nat)
    ensures UnitPrice(item, variation, sel + [Selected(a, q)])
         == UnitPrice(item, variation, sel) + a.price * q
    ensures a.price >= 0 ==> UnitPrice(item, variation, sel) <= UnitPrice(item, variation, sel + [Selected(a, q)])
  {
    AddOnSumConcat(sel, [Selected(a, q)]);
    assert [Selected(a, q)][1..] == [];
  }
}
