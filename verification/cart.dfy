/**
 * The cart page: how each cart line is presented and which request each of
 * its controls sends to the cart's owner. The owner's ledger (how lines are
 * merged, updated and totalled) is not part of this model; its total arrives
 * as a value.
 */
module Cart {
  import opened Seqs
  import opened Catalog
  import opened Pricing
  import opened Expansion
  import opened Decimal

  /** One add-on in the summary: `name xN` when it carries a count above 1, else `name`. */
  function AddOnLabel(e: LineAddOn): (t: string)
    ensures |t| >= |e.addOn.name| && t[..|e.addOn.name|] == e.addOn.name
    ensures e.quantity.Some? && e.quantity.value > 1 ==>
      t[|e.addOn.name|..] == " x" + DecimalString(e.quantity.value)
  {
    if e.quantity.Some? && e.quantity.value > 1
    then e.addOn.name + " x" + DecimalString(e.quantity.value)
    else e.addOn.name
  }

  /** `parts.join(sep)`. */
  function Join(parts: seq<string>, sep: string): (r: string)
    ensures |parts| == 0 ==> r == ""
    ensures |parts| == 1 ==> r == parts[0]
    ensures |parts| > 0 ==> |r| == JoinedLength(parts) + |sep| * (|parts| - 1)
  {
    if |parts| == 0 then ""
    else if |parts| == 1 then parts[0]
    else parts[0] + sep + Join(parts[1..], sep)
  }

  /** Total length of the parts. */
  function JoinedLength(parts: seq<string>): nat
  {
    if |parts| == 0 then 0 else |parts[0]| + JoinedLength(parts[1..])
  }

  /** Where part `i` starts in the joined string: the earlier parts, each followed by `sep`. */
  function Offset(parts: seq<string>, sep: string, i: nat): nat
    requires i <= |parts|
  {
    if i == 0 then 0 else |parts[0]| + |sep| + Offset(parts[1..], sep, i - 1)
  }

  /** Part `i` sits in `r` at its offset. */
  predicate PartAt(r: string, parts: seq<string>, sep: string, i: nat)
    requires i < |parts|
  {
    var at := Offset(parts, sep, i);
    at + |parts[i]| <= |r| && r[at..at + |parts[i]|] == parts[i]
  }

  /** `sep` follows part `i` in `r`. */
  predicate SepAfter(r: string, parts: seq<string>, sep: string, i: nat)
    requires i < |parts|
  {
    var end := Offset(parts, sep, i) + |parts[i]|;
    end + |sep| <= |r| && r[end..end + |sep|] == sep
  }

  /**
   * `r` is the parts joined by `sep`: each part at its offset, `sep` after
   * every part but the last, and the last part ending `r`. This fixes every
   * character of `r`.
   */
  predicate Joined(r: string, parts: seq<string>, sep: string)
  {
    && |parts| > 0
    && Offset(parts, sep, |parts| - 1) + |parts[|parts| - 1]| == |r|
    && (forall i :: 0 <= i < |parts| ==> PartAt(r, parts, sep, i))
    && (forall i :: 0 <= i < |parts| - 1 ==> SepAfter(r, parts, sep, i))
  }

  /** The joined string holds each part at its offset, with `sep` in every gap. */
  lemma JoinPlacesParts(parts: seq<string>, sep: string)
    requires |parts| > 0
    ensures Joined(Join(parts, sep), parts, sep)
  {
    JoinEnd(parts, sep);
    forall i | 0 <= i < |parts|
      ensures PartAt(Join(parts, sep), parts, sep, i)
    {
      JoinPartAt(parts, sep, i);
    }
    forall i | 0 <= i < |parts| - 1
      ensures SepAfter(Join(parts, sep), parts, sep, i)
    {
      JoinSepAt(parts, sep, i);
    }
  }

  /** The last part ends the joined string. */
  lemma {:induction false} JoinEnd(parts: seq<string>, sep: string)
    requires |parts| > 0
    ensures Offset(parts, sep, |parts| - 1) + |parts[|parts| - 1]| == |Join(parts, sep)|
    decreases |parts|
  {
    if |parts| > 1 {
      JoinEnd(parts[1..], sep);
    }
  }

  /** Part `i` sits at its offset. */
  lemma {:induction false} JoinPartAt(parts: seq<string>, sep: string, i: nat)
    requires i < |parts|
    ensures PartAt(Join(parts, sep), parts, sep, i)
    decreases i
  {
    if |parts| > 1 {
      var tail, lead := parts[1..], parts[0] + sep;
      var rest := Join(tail, sep);
      assert Join(parts, sep) == lead + rest;
      if i == 0 {
        assert (lead + rest)[..|parts[0]|] == parts[0];
      } else {
        var at := Offset(tail, sep, i - 1);
        assert Offset(parts, sep, i) == |lead| + at;
        JoinPartAt(tail, sep, i - 1);
        SliceAfter(lead, rest, at, at + |tail[i - 1]|);
      }
    }
  }

  /** The separator fills the gap after part `i`. */
  lemma {:induction false} JoinSepAt(parts: seq<string>, sep: string, i: nat)
    requires i + 1 < |parts|
    ensures SepAfter(Join(parts, sep), parts, sep, i)
    decreases i
  {
    var tail, lead := parts[1..], parts[0] + sep;
    var rest := Join(tail, sep);
    assert Join(parts, sep) == lead + rest;
    if i == 0 {
      SliceMiddle(parts[0], sep, rest);
    } else {
      var end := Offset(tail, sep, i - 1) + |tail[i - 1]|;
      assert Offset(parts, sep, i) + |parts[i]| == |lead| + end;
      JoinSepAt(tail, sep, i - 1);
      SliceAfter(lead, rest, end, end + |sep|);
    }
  }

  /** A slice of the part after a prefix. */
  lemma SliceAfter(a: string, b: string, i: nat, j: nat)
    requires i <= j <= |b|
    ensures (a + b)[|a| + i..|a| + j] == b[i..j]
  {
  }

  /** The middle of three concatenated strings. */
  lemma SliceMiddle(a: string, b: string, c: string)
    ensures (a + b + c)[|a|..|a| + |b|] == b
  {
  }

  /** The label of each add-on, in line order. */
  function Labels(addOns: seq<LineAddOn>): (r: seq<string>)
    ensures |r| == |addOns|
    ensures forall i :: 0 <= i < |r| ==> r[i] == AddOnLabel(addOns[i])
  {
    seq(|addOns|, i requires 0 <= i < |addOns| => AddOnLabel(addOns[i]))
  }

  /** The add-on names, in line order. */
  function Names(addOns: seq<LineAddOn>): (r: seq<string>)
    ensures |r| == |addOns|
    ensures forall i :: 0 <= i < |r| ==> r[i] == addOns[i].addOn.name
  {
    seq(|addOns|, i requires 0 <= i < |addOns| => addOns[i].addOn.name)
  }

  /**
   * The text after "Add-ons: ": each add-on's label (`Labels`) at its offset,
   * in line order, with ", " after every label but the last, which ends the
   * text.
   */
  function AddOnSummary(addOns: seq<LineAddOn>): (r: string)
    ensures |addOns| == 0 ==> r == ""
    ensures |addOns| > 0 ==> Joined(r, Labels(addOns), ", ")
  {
    var labels := Labels(addOns);
    if |addOns| == 0 then Join(labels, ", ")
    else JoinPlacesParts(labels, ", "); Join(labels, ", ")
  }

  /** A label is the plain name exactly when the add-on carries no count above 1. */
  lemma LabelPlainIffUncounted(e: LineAddOn)
    ensures AddOnLabel(e) == e.addOn.name <==> !(e.quantity.Some? && e.quantity.value > 1)
  {
    if e.quantity.Some? && e.quantity.value > 1 {
      assert |AddOnLabel(e)| > |e.addOn.name|;
    }
  }

  /** The count printed after " x" reads back as the add-on's quantity. */
  lemma LabelCountReadsBack(e: LineAddOn)
    requires e.quantity.Some? && e.quantity.value > 1
    ensures var suffix := AddOnLabel(e)[|e.addOn.name| + 2..];
      && (forall i :: 0 <= i < |suffix| ==> '0' <= suffix[i] <= '9')
      && ParseDecimal(suffix) == e.quantity.value
  {
    var t := AddOnLabel(e);
    assert t[|e.addOn.name| + 2..] == DecimalString(e.quantity.value);
    ParseDecimalString(e.quantity.value);
  }

  /**
   * Lines filled by the customization flow carry no counts, so their summary
   * lists plain names: an add-on chosen N times shows its name N times, in
   * selection order.
   */
  lemma ExpandedSummaryListsNames(sel: seq<Selected>)
    ensures AddOnSummary(Expand(sel)) == Join(Names(Expand(sel)), ", ")
    ensures forall a: AddOn, n: nat ::
      AddOnSummary(Expand([Selected(a, n)])) == Join(seq(n, _ => a.name), ", ")
  {
    var e := Expand(sel);
    assert Labels(e) == Names(e);
    forall a: AddOn, n: nat
      ensures AddOnSummary(Expand([Selected(a, n)])) == Join(seq(n, _ => a.name), ", ")
    {
      var one := Expand([Selected(a, n)]);
      assert [Selected(a, n)][1..] == [];
      assert one == Fill(n, Uncounted(Selected(a, n))) + [];
      assert Labels(one) == seq(n, _ => a.name);
    }
  }

  /** What one cart line shows. */
  datatype LineView = LineView(
    name: string,
    sizeLine: Option<string>,
    addOnLine: Option<string>,
    unitPrice: int,
    quantity: int,
    subtotal: int)

  /** Presentation of one line: size and add-on lines only when there is something to show. */
  function ViewLine(c: CartItem): (v: LineView)
    ensures v.name == c.name && v.quantity == c.quantity
    ensures v.sizeLine.Some? <==> c.selectedVariation.Some?
    ensures v.sizeLine.Some? ==> v.sizeLine.value == "Size: " + c.selectedVariation.value.name
    ensures v.addOnLine.Some? <==> c.selectedAddOns.Some? && |c.selectedAddOns.value| > 0
    ensures v.addOnLine.Some? ==> v.addOnLine.value == "Add-ons: " + AddOnSummary(c.selectedAddOns.value)
    ensures v.unitPrice == c.totalPrice
    ensures v.subtotal == v.unitPrice * v.quantity
  {
    LineView(
      c.name,
      if c.selectedVariation.Some? then Some("Size: " + c.selectedVariation.value.name) else None,
      if c.selectedAddOns.Some? && |c.selectedAddOns.value| > 0
      then Some("Add-ons: " + AddOnSummary(c.selectedAddOns.value)) else None,
      c.totalPrice,
      c.quantity,
      c.totalPrice * c.quantity)
  }

  /**
   * A line filled from the customization modal, carrying the size and the
   * expanded add-ons the modal sent, shows its size line exactly when a size
   * was chosen and its add-on line exactly when at least one add-on unit was
   * selected; that line lists the plain names, one per unit, in selection
   * order.
   */
  lemma ConfirmedLineView(c: CartItem, v: Option<Variation>, sel: seq<Selected>)
    requires c.selectedVariation == v && c.selectedAddOns == Some(Expand(sel))
    ensures ViewLine(c).sizeLine.Some? <==> v.Some?
    ensures ViewLine(c).addOnLine.Some? <==> QuantitySum(sel) > 0
    ensures ViewLine(c).addOnLine.Some? ==>
      ViewLine(c).addOnLine.value == "Add-ons: " + Join(Names(Expand(sel)), ", ")
      && |Names(Expand(sel))| == QuantitySum(sel)
  {
    ExpandedSummaryListsNames(sel);
  }

  /** The page: the empty state, or the lines with the owner's total and checkout. */
  datatype CartPage = EmptyCart | Filled(lines: seq<LineView>, total: int)

  /** `total` is what the owner's `getTotalPrice()` returned. */
  function ViewCart(cart: seq<CartItem>, total: int): (p: CartPage)
    ensures p.EmptyCart? <==> |cart| == 0
    ensures p.Filled? ==> |p.lines| == |cart| && p.total == total
    ensures p.Filled? ==> forall i :: 0 <= i < |cart| ==> p.lines[i] == ViewLine(cart[i])
  {
    if |cart| == 0 then EmptyCart
    else Filled(seq(|cart|, i requires 0 <= i < |cart| => ViewLine(cart[i])), total)
  }

  /** A click on the cart page; line controls name the line by position. */
  datatype CartEvent = Browse | ClearAll | Minus(line: nat) | Plus(line: nat) | Remove(line: nat) | ProceedToCheckout

  /** The request a click sends, or None when no such control is on the page. */
  function CartRequest(cart: seq<CartItem>, ev: CartEvent): (r: Option<Request>)
    ensures ev.Browse? ==> r == Some(ContinueShopping)
    ensures |cart| == 0 ==> (r.Some? <==> ev.Browse?)
    ensures |cart| > 0 && ev.ClearAll? ==> r == Some(ClearCart)
    ensures |cart| > 0 && ev.ProceedToCheckout? ==> r == Some(Checkout)
    ensures (ev.Minus? || ev.Plus? || ev.Remove?) ==> (r.Some? <==> ev.line < |cart|)
    ensures r.Some? && r.value.UpdateQuantity? <==> (ev.Minus? || ev.Plus?) && ev.line < |cart|
    ensures r.Some? && r.value.RemoveFromCart? <==> ev.Remove? && ev.line < |cart|
  {
    match ev
    case Browse => Some(ContinueShopping)
    case ClearAll => if |cart| > 0 then Some(ClearCart) else None
    case ProceedToCheckout => if |cart| > 0 then Some(Checkout) else None
    case Minus(i) => if i < |cart| then Some(UpdateQuantity(cart[i].id, cart[i].quantity - 1)) else None
    case Plus(i) => if i < |cart| then Some(UpdateQuantity(cart[i].id, cart[i].quantity + 1)) else None
    case Remove(i) => if i < |cart| then Some(RemoveFromCart(cart[i].id)) else None
  }

  /**
   * Line controls target a line on the page: "-" and "+" ask for one less or
   * one more than the quantity it shows, with no lower bound on "-", and the
   * bin asks for the line's removal.
   */
  lemma LineRequestsTargetShownLine(cart: seq<CartItem>, ev: CartEvent)
    requires CartRequest(cart, ev).Some?
    ensures var r := CartRequest(cart, ev).value;
      && (r.UpdateQuantity? || r.RemoveFromCart? ==>
            exists i :: 0 <= i < |cart| && cart[i].id == r.id
              && ViewLine(cart[i]).name == cart[i].name
              && (r.UpdateQuantity? ==> r.quantity == ViewLine(cart[i]).quantity + (if ev.Minus? then -1 else 1)))
      && (ev.Minus? ==> r == UpdateQuantity(cart[ev.line].id, ViewLine(cart[ev.line]).quantity - 1))
      && (ev.Plus? ==> r == UpdateQuantity(cart[ev.line].id, ViewLine(cart[ev.line]).quantity + 1))
      && (ev.Remove? ==> r == RemoveFromCart(cart[ev.line].id))
  {
    var r := CartRequest(cart, ev).value;
    if r.UpdateQuantity? || r.RemoveFromCart? {
      assert 0 <= ev.line < |cart| && cart[ev.line].id == r.id;
    }
  }

  /** The "-" on a line holding one unit asks the owner for quantity 0. */
  lemma MinusAtOneRequestsZero(cart: seq<CartItem>, i: nat)
    requires i < |cart| && cart[i].quantity == 1
    ensures CartRequest(cart, Minus(i)) == Some(UpdateQuantity(cart[i].id, 0))
  {
  }
}
