/**
 * The hand-off from the customization modal to the cart: every selected
 * add-on is repeated `quantity` times with its count cleared
 * (`Array(addOn.quantity).fill({ ...addOn, quantity: undefined })`).
 */
module Expansion {
  import opened Seqs
  import opened Catalog
  import opened Pricing
  import opened Selection

  /** `Array(n).fill(x)`. */
  function Fill(n: nat, x: LineAddOn): (r: seq<LineAddOn>)
    ensures |r| == n
    ensures forall i :: 0 <= i < |r| ==> r[i] == x
  {
    if n == 0 then [] else [x] + Fill(n - 1, x)
  }

  /** One copy of a selected add-on as the cart receives it: same fields, no count. */
  function Uncounted(s: Selected): (e: LineAddOn)
    ensures e.addOn == s.addOn && e.quantity.None?
  {
    LineAddOn(s.addOn, None)
  }

  /** Total number of add-on units selected. */
  function QuantitySum(sel: seq<Selected>): nat
  {
    if |sel| == 0 then 0 else sel[0].quantity + QuantitySum(sel[1..])
  }

  /** How many units of add-on `a` the selection holds, over all its entries. */
  function Occurrences(sel: seq<Selected>, a: AddOn): nat
  {
    if |sel| == 0 then 0
    else (if sel[0].addOn == a then sel[0].quantity else 0) + Occurrences(sel[1..], a)
  }

  /** Sum of the unit prices of the add-ons stored on a cart line. */
  function LinePriceSum(lines: seq<LineAddOn>): int
  {
    if |lines| == 0 then 0 else lines[0].addOn.price + LinePriceSum(lines[1..])
  }

  /** `selectedAddOns.flatMap(addOn => Array(addOn.quantity).fill(...))`. */
  function Expand(sel: seq<Selected>): (r: seq<LineAddOn>)
    ensures |r| == QuantitySum(sel)
    ensures forall i :: 0 <= i < |r| ==> r[i].quantity.None?
  {
    if |sel| == 0 then [] else Fill(sel[0].quantity, Uncounted(sel[0])) + Expand(sel[1..])
  }

  /** Expansion maps concatenated selections to concatenated expansions (order is kept). */
  lemma {:induction false} ExpandConcat(a: seq<Selected>, b: seq<Selected>)
    ensures Expand(a + b) == Expand(a) + Expand(b)
    decreases |a|
  {
    if |a| == 0 {
      assert a + b == b;
    } else {
      assert (a + b)[0] == a[0];
      assert (a + b)[1..] == a[1..] + b;
      ExpandConcat(a[1..], b);
    }
  }

  /**
   * In selection order: the copies of entry `k` sit between the copies of the
   * entries before it and those after it.
   */
  lemma {:induction false} ExpandAt(sel: seq<Selected>, k: nat)
    requires k < |sel|
    ensures Expand(sel) == Expand(sel[..k]) + Fill(sel[k].quantity, Uncounted(sel[k])) + Expand(sel[k + 1..])
    decreases k
  {
    var head := Fill(sel[0].quantity, Uncounted(sel[0]));
    assert Expand(sel) == head + Expand(sel[1..]);
    if k == 0 {
      assert sel[..k] == [];
      assert sel[k + 1..] == sel[1..];
    } else {
      var tail := sel[1..];
      ExpandAt(tail, k - 1);
      assert tail[k - 1] == sel[k];
      assert tail[k..] == sel[k + 1..];
      assert sel[..k][0] == sel[0];
      assert sel[..k][1..] == tail[..k - 1];
      assert Expand(sel[..k]) == head + Expand(tail[..k - 1]);
    }
  }

  /** The cart-line price sum splits over concatenation. */
  lemma {:induction false} LinePriceSumConcat(a: seq<LineAddOn>, b: seq<LineAddOn>)
    ensures LinePriceSum(a + b) == LinePriceSum(a) + LinePriceSum(b)
    decreases |a|
  {
    if |a| == 0 {
      assert a + b == b;
    } else {
      assert (a + b)[1..] == a[1..] + b;
      LinePriceSumConcat(a[1..], b);
    }
  }

  /** `n` copies of one add-on cost `n` times its price. */
  lemma {:induction false} FillPriceSum(n: nat, x: LineAddOn)
    ensures LinePriceSum(Fill(n, x)) == x.addOn.price * n
    decreases n
  {
    if n > 0 {
      assert ([x] + Fill(n - 1, x))[1..] == Fill(n - 1, x);
      FillPriceSum(n - 1, x);
    }
  }

  /** The prices of the expanded add-ons add up to the add-on part of the modal's price. */
  lemma {:induction false} ExpandPriceSum(sel: seq<Selected>)
    ensures LinePriceSum(Expand(sel)) == AddOnSum(sel)
    decreases |sel|
  {
    if |sel| > 0 {
      LinePriceSumConcat(Fill(sel[0].quantity, Uncounted(sel[0])), Expand(sel[1..]));
      FillPriceSum(sel[0].quantity, Uncounted(sel[0]));
      ExpandPriceSum(sel[1..]);
    }
  }

  /** `n` copies of `x` hold `x` exactly `n` times and nothing else. */
  lemma {:induction false} FillCount(n: nat, x: LineAddOn, y: LineAddOn)
    ensures multiset(Fill(n, x))[y] == (if y == x then n else 0)
    decreases n
  {
    if n > 0 {
      FillCount(n - 1, x, y);
    }
  }

  /** Each add-on appears in the expansion exactly as many times as it was selected. */
  lemma {:induction false} ExpandCount(sel: seq<Selected>, a: AddOn)
    ensures multiset(Expand(sel))[LineAddOn(a, None)] == Occurrences(sel, a)
    decreases |sel|
  {
    if |sel| > 0 {
      FillCount(sel[0].quantity, Uncounted(sel[0]), LineAddOn(a, None));
      ExpandCount(sel[1..], a);
    }
  }

  /** An add-on no entry holds has no units. */
  lemma {:induction false} OccurrencesAbsent(sel: seq<Selected>, a: AddOn)
    requires forall i :: 0 <= i < |sel| ==> sel[i].addOn != a
    ensures Occurrences(sel, a) == 0
    decreases |sel|
  {
    if |sel| > 0 {
      OccurrencesAbsent(sel[1..], a);
    }
  }

  /**
   * With ids unique, the expansion holds each selected add-on exactly as many
   * times as its entry's quantity.
   */
  lemma {:induction false} ExpandCountOfEntry(sel: seq<Selected>, k: nat)
    requires UniqueIds(sel) && k < |sel|
    ensures multiset(Expand(sel))[LineAddOn(sel[k].addOn, None)] == sel[k].quantity
    decreases |sel|
  {
    var a := sel[k].addOn;
    ExpandCount(sel, a);
    UniqueIdsTail(sel);
    if k == 0 {
      forall i | 0 <= i < |sel[1..]|
        ensures sel[1..][i].addOn != a
      {
        assert sel[1..][i] in sel[1..];
      }
      OccurrencesAbsent(sel[1..], a);
    } else {
      assert sel[1..][k - 1] == sel[k];
      ExpandCountOfEntry(sel[1..], k - 1);
      ExpandCount(sel[1..], a);
      assert sel[k] in sel[1..];
    }
  }
}
