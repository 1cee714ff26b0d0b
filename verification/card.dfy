/**
 * The menu item card and its customization modal as a state machine. The
 * component's three `useState` values form an immutable `Session`; each
 * handler is a pure transition that also returns the callbacks it invokes,
 * in order. A handler only runs when the control that triggers it is on
 * screen.
 */
module Card {
  import opened Seqs
  import opened Catalog
  import opened Pricing
  import opened Selection
  import opened Expansion
  import opened Grouping
  import Cart

  /** `showCustomization`, `selectedVariation`, `selectedAddOns`. */
  datatype Session = Session(showCustomization: bool, selectedVariation: Option<Variation>, selectedAddOns: seq<Selected>)

  /** What a handler leaves behind: the next state and the callbacks it made. */
  datatype Outcome = Outcome(session: Session, requests: seq<Request>)

  /** A click on one of the card's or the modal's controls. */
  datatype Event =
    | ClickAdd                    // "Customize" / "Add to Cart" on the card
    | Increment                   // card "+"
    | Decrement                   // card "-"
    | Close                       // modal "X"
    | Confirm                     // modal "Add to Cart - ₱..."
    | ChooseVariation(v: Variation)
    | AddAddOn(a: AddOn)          // "Add" on an unselected add-on
    | MoreAddOn(a: AddOn)         // "+" on a selected add-on
    | LessAddOn(a: AddOn)         // "-" on a selected add-on

  /** The control the card shows in its price row. */
  datatype Control = SoldOut | AddButton(customize: bool) | Stepper

  /** The item offers sizes or add-ons, so adding it goes through the modal. */
  predicate Customizable(item: MenuItem)
  {
    |item.variations| > 0 || |item.addOns| > 0
  }

  /** The state a card starts in: closed, first variation preselected, no add-ons. */
  function InitialSession(item: MenuItem): (s: Session)
    ensures !s.showCustomization && s.selectedAddOns == []
    ensures s.selectedVariation.Some? <==> |item.variations| > 0
    ensures s.selectedVariation.Some? ==> s.selectedVariation.value == item.variations[0]
    ensures SessionInvariant(item, s)
  {
    Session(false, if |item.variations| > 0 then Some(item.variations[0]) else None, [])
  }

  /** Sold out when unavailable, the add button when nothing is in the cart, the stepper otherwise. */
  function CardControl(item: MenuItem, quantity: int): (c: Control)
    ensures c.SoldOut? <==> !item.available
    ensures c.AddButton? <==> item.available && quantity == 0
    ensures c.Stepper? <==> item.available && quantity != 0
    ensures c.AddButton? ==> (c.customize <==> Customizable(item))
  {
    if !item.available then SoldOut
    else if quantity == 0 then AddButton(Customizable(item))
    else Stepper
  }

  /** The add-on rows the modal lists: every add-on of every group. */
  predicate Listed(item: MenuItem, a: AddOn)
  {
    var groups := GroupByCategory(item.addOns);
    exists i :: 0 <= i < |groups| && a in groups[i].addOns
  }

  /** The modal lists exactly the item's add-ons, and shows the add-on section iff there are any. */
  lemma ListedIffAddOn(item: MenuItem, a: AddOn)
    ensures Listed(item, a) <==> a in item.addOns
    ensures |GroupByCategory(item.addOns)| > 0 <==> |item.addOns| > 0
  {
    var groups := GroupByCategory(item.addOns);
    GroupingPartitions(item.addOns);
    if a in item.addOns {
      var i :| 0 <= i < |groups| && groups[i].category == a.category;
      assert a in Filter(item.addOns, InCategory(groups[i].category));
    }
    if Listed(item, a) {
      var i :| 0 <= i < |groups| && a in groups[i].addOns;
      assert a in Filter(item.addOns, InCategory(groups[i].category));
    }
    if |item.addOns| > 0 {
      assert item.addOns[0] in item.addOns;
    }
    if |groups| > 0 {
      assert groups[0].addOns[0] in Filter(item.addOns, InCategory(groups[0].category));
    }
  }

  /** The control that raises `ev` is on screen. */
  predicate Enabled(item: MenuItem, quantity: int, s: Session, ev: Event)
  {
    match ev
    case ClickAdd => CardControl(item, quantity).AddButton?
    case Increment => CardControl(item, quantity).Stepper?
    case Decrement => CardControl(item, quantity).Stepper?
    case Close => s.showCustomization
    case Confirm => s.showCustomization
    case ChooseVariation(v) => s.showCustomization && v in item.variations
    case AddAddOn(a) =>
      s.showCustomization && Listed(item, a) && FirstIndex(s.selectedAddOns, HasId(a.id)).None?
    case MoreAddOn(a) =>
      s.showCustomization && Listed(item, a) && FirstIndex(s.selectedAddOns, HasId(a.id)).Some?
    case LessAddOn(a) =>
      s.showCustomization && Listed(item, a) && FirstIndex(s.selectedAddOns, HasId(a.id)).Some?
  }

  /** `current?.quantity || 1` for the add-on's current entry. */
  function CountOrOne(sel: seq<Selected>, id: Id): (n: nat)
    ensures n >= 1
    ensures DisplayedQuantity(sel, id) >= 1 ==> n == DisplayedQuantity(sel, id)
    ensures DisplayedQuantity(sel, id) == 0 ==> n == 1
  {
    match FirstIndex(sel, HasId(id))
    case None => 1
    case Some(k) => if sel[k].quantity == 0 then 1 else sel[k].quantity
  }

  /**
   * The handler behind each control. Each click makes at most one callback:
   * the plain add, the card's "+", its "-" from a positive quantity, and the
   * modal's confirm. Only the add button opens the modal, only X and confirm
   * close it, only a size choice changes the variation, and only confirm and
   * the add-on buttons touch the selected add-ons.
   */
  function Handle(item: MenuItem, quantity: int, s: Session, ev: Event): (o: Outcome)
    ensures |o.requests| <= 1
    ensures |o.requests| == 1 <==>
      (ev.ClickAdd? && !Customizable(item)) || ev.Increment? || (ev.Decrement? && quantity > 0) || ev.Confirm?
    ensures o.session.showCustomization <==>
      (ev.ClickAdd? && Customizable(item)) || (s.showCustomization && !ev.Close? && !ev.Confirm?)
    ensures o.session.selectedVariation == (if ev.ChooseVariation? then Some(ev.v) else s.selectedVariation)
    ensures !(ev.Confirm? || ev.AddAddOn? || ev.MoreAddOn? || ev.LessAddOn?) ==>
      o.session.selectedAddOns == s.selectedAddOns
    ensures ev.Confirm? ==> o.session.selectedAddOns == []
    ensures ev.Increment? ==> o.requests == [UpdateQuantity(item.id, quantity + 1)]
    ensures ev.Decrement? && quantity > 0 ==> o.requests == [UpdateQuantity(item.id, quantity - 1)]
    ensures ev.ClickAdd? && !Customizable(item) ==> o.requests == [AddToCart(item, 1, None, None)]
    ensures ev.Confirm? ==>
      o.requests == [AddToCart(item, 1, s.selectedVariation, Some(Expand(s.selectedAddOns)))]
  {
    match ev
    case ClickAdd =>
      if Customizable(item) then Outcome(s.(showCustomization := true), [])
      else Outcome(s, [AddToCart(item, 1, None, None)])
    case Increment => Outcome(s, [UpdateQuantity(item.id, quantity + 1)])
    case Decrement =>
      if quantity > 0 then Outcome(s, [UpdateQuantity(item.id, quantity - 1)]) else Outcome(s, [])
    case Close => Outcome(s.(showCustomization := false), [])
    case Confirm =>
      Outcome(Session(false, s.selectedVariation, []),
              [AddToCart(item, 1, s.selectedVariation, Some(Expand(s.selectedAddOns)))])
    case ChooseVariation(v) => Outcome(s.(selectedVariation := Some(v)), [])
    case AddAddOn(a) =>
      Outcome(s.(selectedAddOns := UpdateAddOnQuantity(s.selectedAddOns, a, 1)), [])
    case MoreAddOn(a) =>
      var q := DisplayedQuantity(s.selectedAddOns, a.id) + 1;
      Outcome(s.(selectedAddOns := UpdateAddOnQuantity(s.selectedAddOns, a, q)), [])
    case LessAddOn(a) =>
      var q := CountOrOne(s.selectedAddOns, a.id) - 1;
      Outcome(s.(selectedAddOns := UpdateAddOnQuantity(s.selectedAddOns, a, q)), [])
  }

  /** One click: the handler runs when its control is shown; otherwise nothing happens. */
  function Step(item: MenuItem, quantity: int, s: Session, ev: Event): (o: Outcome)
    ensures !Enabled(item, quantity, s, ev) ==> o == Outcome(s, [])
  {
    if Enabled(item, quantity, s, ev) then Handle(item, quantity, s, ev) else Outcome(s, [])
  }

  /** What holds of every session a card can reach. */
  predicate SessionInvariant(item: MenuItem, s: Session)
  {
    && WellFormed(s.selectedAddOns)
    && (forall i :: 0 <= i < |s.selectedAddOns| ==> s.selectedAddOns[i].addOn in item.addOns)
    && (s.selectedVariation.Some? ==> s.selectedVariation.value in item.variations)
  }

  /**
   * Every click keeps the selected add-ons unique by id with quantities of at
   * least 1, drawn from the item's own add-ons, and the selected variation
   * one of the item's variations.
   */
  lemma StepPreservesInvariant(item: MenuItem, quantity: int, s: Session, ev: Event)
    requires SessionInvariant(item, s)
    ensures SessionInvariant(item, Step(item, quantity, s, ev).session)
  {
    var sel := s.selectedAddOns;
    if Enabled(item, quantity, s, ev) {
      match ev
      case AddAddOn(a) =>
        AddOnUpdateInvariant(item, sel, a, 1);
      case MoreAddOn(a) =>
        AddOnUpdateInvariant(item, sel, a, DisplayedQuantity(sel, a.id) + 1);
      case LessAddOn(a) =>
        AddOnUpdateInvariant(item, sel, a, CountOrOne(sel, a.id) - 1);
      case _ =>
    }
  }

  /** A click together with the cart quantity the card was showing at the time. */
  datatype Click = Click(quantity: int, event: Event)

  /** The session after a run of clicks. */
  function Run(item: MenuItem, s: Session, clicks: seq<Click>): Session
    decreases |clicks|
  {
    if |clicks| == 0 then s
    else Run(item, Step(item, clicks[0].quantity, s, clicks[0].event).session, clicks[1..])
  }

  /** Every session a card reaches from its initial state satisfies the invariant. */
  lemma {:induction false} ReachableSessionsKeepInvariant(item: MenuItem, s: Session, clicks: seq<Click>)
    requires SessionInvariant(item, s)
    ensures SessionInvariant(item, Run(item, s, clicks))
    decreases |clicks|
  {
    if |clicks| > 0 {
      StepPreservesInvariant(item, clicks[0].quantity, s, clicks[0].event);
      ReachableSessionsKeepInvariant(item, Step(item, clicks[0].quantity, s, clicks[0].event).session, clicks[1..]);
    }
  }

  /** An update for a listed add-on keeps the selection well formed and within the item's add-ons. */
  lemma AddOnUpdateInvariant(item: MenuItem, sel: seq<Selected>, a: AddOn, q: nat)
    requires WellFormed(sel) && Listed(item, a)
    requires forall i :: 0 <= i < |sel| ==> sel[i].addOn in item.addOns
    ensures WellFormed(UpdateAddOnQuantity(sel, a, q))
    ensures forall i :: 0 <= i < |UpdateAddOnQuantity(sel, a, q)| ==> UpdateAddOnQuantity(sel, a, q)[i].addOn in item.addOns
  {
    UpdatePreservesWellFormed(sel, a, q);
    ListedIffAddOn(item, a);
    var r := UpdateAddOnQuantity(sel, a, q);
    forall i | 0 <= i < |r|
      ensures r[i].addOn in item.addOns
    {
      if q == 0 {
        assert r[i] in r;
      }
    }
  }

  /**
   * The card's add button opens the modal exactly when the item has sizes or
   * add-ons; otherwise it asks the cart to add one plain unit.
   */
  lemma ClickAddOpensIffCustomizable(item: MenuItem, quantity: int, s: Session)
    requires item.available && quantity == 0
    ensures var o := Step(item, quantity, s, ClickAdd);
      && (Customizable(item) ==> o.session == s.(showCustomization := true) && o.requests == [])
      && (!Customizable(item) ==> o.session == s && o.requests == [AddToCart(item, 1, None, None)])
  {
  }

  /**
   * Confirming sends one unit with the current variation and the expanded
   * add-ons, then closes the modal and clears the add-ons (the variation
   * stays). The add-ons sent cost, together with the sized price, exactly
   * what the modal displayed.
   */
  lemma ConfirmSendsDisplayedPrice(item: MenuItem, quantity: int, s: Session)
    requires s.showCustomization
    ensures var o := Step(item, quantity, s, Confirm);
      && o.session == Session(false, s.selectedVariation, [])
      && |o.requests| == 1
      && o.requests[0].AddToCart? && o.requests[0].item == item && o.requests[0].quantity == 1
      && o.requests[0].variation == s.selectedVariation
      && o.requests[0].addOns == Some(Expand(s.selectedAddOns))
      && (forall i :: 0 <= i < |o.requests[0].addOns.value| ==> o.requests[0].addOns.value[i].quantity.None?)
      && SizedPrice(item, s.selectedVariation) + LinePriceSum(o.requests[0].addOns.value)
         == UnitPrice(item, s.selectedVariation, s.selectedAddOns)
      && |o.requests[0].addOns.value| == QuantitySum(s.selectedAddOns)
  {
    ExpandPriceSum(s.selectedAddOns);
  }

  /**
   * The add-ons confirm sends carry no count, so the cart summarises them by
   * plain name, one per selected unit, in selection order.
   */
  lemma ConfirmedAddOnsPrintPlain(item: MenuItem, quantity: int, s: Session)
    requires s.showCustomization
    ensures var sent := Step(item, quantity, s, Confirm).requests[0].addOns.value;
      && Cart.AddOnSummary(sent) == Cart.Join(Cart.Names(sent), ", ")
      && |Cart.Names(sent)| == QuantitySum(s.selectedAddOns)
  {
    Cart.ExpandedSummaryListsNames(s.selectedAddOns);
  }

  /**
   * The "Add" on an add-on not yet chosen selects one unit of it and leaves
   * every other add-on's count as it was.
   */
  lemma AddAddOnSelectsOne(item: MenuItem, quantity: int, s: Session, a: AddOn, b: Id)
    requires s.showCustomization && Listed(item, a)
    requires FirstIndex(s.selectedAddOns, HasId(a.id)).None?
    ensures DisplayedQuantity(Step(item, quantity, s, AddAddOn(a)).session.selectedAddOns, a.id) == 1
    ensures b != a.id ==>
      DisplayedQuantity(Step(item, quantity, s, AddAddOn(a)).session.selectedAddOns, b)
      == DisplayedQuantity(s.selectedAddOns, b)
  {
    assert Enabled(item, quantity, s, AddAddOn(a));
    assert Step(item, quantity, s, AddAddOn(a)).session.selectedAddOns == UpdateAddOnQuantity(s.selectedAddOns, a, 1);
    UpdateThenDisplay(s.selectedAddOns, a, 1);
    if b != a.id {
      UpdateKeepsOtherDisplay(s.selectedAddOns, a, 1, b);
    }
  }

  /** Closing with the X only hides the modal: variation and add-ons are kept. */
  lemma CloseKeepsSelection(item: MenuItem, quantity: int, s: Session)
    requires s.showCustomization
    ensures Step(item, quantity, s, Close) == Outcome(Session(false, s.selectedVariation, s.selectedAddOns), [])
  {
  }

  /**
   * The card's "-" never asks for a negative quantity, whatever quantity the
   * card was given: it asks for one less only when the quantity is positive
   * and sends nothing otherwise. "+" asks for one more. Both name the card's
   * item, so from a quantity of at least 0 no stepper request is negative.
   */
  lemma CardRequestsNeverNegative(item: MenuItem, quantity: int, s: Session, ev: Event)
    ensures forall r :: r in Step(item, quantity, s, ev).requests && r.UpdateQuantity? ==>
      r.id == item.id && (r.quantity == quantity + 1 || r.quantity == quantity - 1)
    ensures ev == Decrement ==>
      forall r :: r in Step(item, quantity, s, ev).requests && r.UpdateQuantity? ==> r.quantity >= 0
    ensures ev == Decrement && quantity <= 0 ==> Step(item, quantity, s, ev).requests == []
    ensures ev == Increment && Enabled(item, quantity, s, ev) ==>
      Step(item, quantity, s, ev).requests == [UpdateQuantity(item.id, quantity + 1)]
    ensures ev == Decrement && Enabled(item, quantity, s, ev) && quantity > 0 ==>
      Step(item, quantity, s, ev).requests == [UpdateQuantity(item.id, quantity - 1)]
    ensures quantity >= 0 ==>
      forall r :: r in Step(item, quantity, s, ev).requests && r.UpdateQuantity? ==> r.quantity >= 0
  {
  }

  /** The add-on "+" raises the add-on's displayed count by one. */
  lemma AddOnPlusRaisesCount(item: MenuItem, quantity: int, s: Session, a: AddOn)
    requires WellFormed(s.selectedAddOns)
    requires s.showCustomization && Listed(item, a)
    requires FirstIndex(s.selectedAddOns, HasId(a.id)).Some?
    ensures DisplayedQuantity(Step(item, quantity, s, MoreAddOn(a)).session.selectedAddOns, a.id)
      == DisplayedQuantity(s.selectedAddOns, a.id) + 1
  {
    MoreAddOnRaisesByOne(item, quantity, s, a);
    UpdateThenDisplay(s.selectedAddOns, a, DisplayedQuantity(s.selectedAddOns, a.id) + 1);
  }

  /** The add-on "-" lowers the add-on's displayed count by one, dropping the add-on at zero. */
  lemma AddOnMinusLowersCount(item: MenuItem, quantity: int, s: Session, a: AddOn)
    requires WellFormed(s.selectedAddOns)
    requires s.showCustomization && Listed(item, a)
    requires FirstIndex(s.selectedAddOns, HasId(a.id)).Some?
    ensures DisplayedQuantity(Step(item, quantity, s, LessAddOn(a)).session.selectedAddOns, a.id)
      == DisplayedQuantity(s.selectedAddOns, a.id) - 1
  {
    var q := LessAddOnLowersByOne(item, quantity, s, a);
    UpdateThenDisplay(s.selectedAddOns, a, q);
  }

  /** An add-on's "+" leaves every other add-on's displayed count as it was. */
  lemma AddOnPlusKeepsOtherCounts(item: MenuItem, quantity: int, s: Session, a: AddOn, b: Id)
    requires WellFormed(s.selectedAddOns) && b != a.id
    ensures DisplayedQuantity(Step(item, quantity, s, MoreAddOn(a)).session.selectedAddOns, b)
      == DisplayedQuantity(s.selectedAddOns, b)
  {
    if Enabled(item, quantity, s, MoreAddOn(a)) {
      MoreAddOnRaisesByOne(item, quantity, s, a);
      UpdateKeepsOtherDisplay(s.selectedAddOns, a, DisplayedQuantity(s.selectedAddOns, a.id) + 1, b);
    }
  }

  /** An add-on's "-" leaves every other add-on's displayed count as it was. */
  lemma AddOnMinusKeepsOtherCounts(item: MenuItem, quantity: int, s: Session, a: AddOn, b: Id)
    requires WellFormed(s.selectedAddOns) && b != a.id
    ensures DisplayedQuantity(Step(item, quantity, s, LessAddOn(a)).session.selectedAddOns, b)
      == DisplayedQuantity(s.selectedAddOns, b)
  {
    if Enabled(item, quantity, s, LessAddOn(a)) {
      var q := LessAddOnLowersByOne(item, quantity, s, a);
      UpdateKeepsOtherDisplay(s.selectedAddOns, a, q, b);
    }
  }

  /** The "+" handler writes one more than the displayed count. */
  lemma MoreAddOnRaisesByOne(item: MenuItem, quantity: int, s: Session, a: AddOn)
    requires s.showCustomization && Listed(item, a)
    requires FirstIndex(s.selectedAddOns, HasId(a.id)).Some?
    ensures Step(item, quantity, s, MoreAddOn(a)).session.selectedAddOns
      == UpdateAddOnQuantity(s.selectedAddOns, a, DisplayedQuantity(s.selectedAddOns, a.id) + 1)
  {
    assert Enabled(item, quantity, s, MoreAddOn(a));
  }

  /** The "-" handler writes one less than the displayed count. */
  lemma LessAddOnLowersByOne(item: MenuItem, quantity: int, s: Session, a: AddOn) returns (q: nat)
    requires WellFormed(s.selectedAddOns)
    requires s.showCustomization && Listed(item, a)
    requires FirstIndex(s.selectedAddOns, HasId(a.id)).Some?
    ensures q + 1 == DisplayedQuantity(s.selectedAddOns, a.id)
    ensures Step(item, quantity, s, LessAddOn(a)).session.selectedAddOns == UpdateAddOnQuantity(s.selectedAddOns, a, q)
  {
    var sel := s.selectedAddOns;
    var k := FirstIndex(sel, HasId(a.id)).value;
    assert DisplayedQuantity(sel, a.id) == sel[k].quantity >= 1;
    assert Enabled(item, quantity, s, LessAddOn(a));
    q := DisplayedQuantity(sel, a.id) - 1;
  }


  /** With non-negative add-on prices, the add-on "Add" and "+" never lower the modal's price. */
  lemma AddOnPlusNeverLowersPrice(item: MenuItem, quantity: int, s: Session, a: AddOn)
    requires SessionInvariant(item, s)
    requires NonNegativePrices(s.selectedAddOns) && a.price >= 0
    requires s.showCustomization && Listed(item, a)
    ensures forall ev :: ev in [AddAddOn(a), MoreAddOn(a)] ==>
      UnitPrice(item, s.selectedVariation, s.selectedAddOns)
      <= UnitPrice(item, s.selectedVariation, Step(item, quantity, s, ev).session.selectedAddOns)
  {
    var sel := s.selectedAddOns;
    var before := UnitPrice(item, s.selectedVariation, sel);
    match FirstIndex(sel, HasId(a.id))
    case None =>
      assert Step(item, quantity, s, MoreAddOn(a)).session == s;
      assert Step(item, quantity, s, AddAddOn(a)).session.selectedAddOns == sel + [Selected(a, 1)];
      AppendNeverLowersPrice(item, s.selectedVariation, sel, a, 1);
    case Some(k) =>
      assert Step(item, quantity, s, AddAddOn(a)).session == s;
      MoreAddOnRaisesByOne(item, quantity, s, a);
      assert DisplayedQuantity(sel, a.id) == sel[k].quantity;
      RaiseQuantityNeverLowersPrice(item, s.selectedVariation, sel, k, sel[k].quantity + 1);
  }
}
