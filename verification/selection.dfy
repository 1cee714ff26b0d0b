/**
 * The list of add-ons selected in the customization modal and its keyed
 * upsert/delete `updateAddOnQuantity`, keyed by add-on id.
 */
module Selection {
  import opened Seqs
  import opened Catalog
  import opened Pricing

  /** The entry is for the add-on with this id. */
  function HasId(id: Id): Selected -> bool
  {
    (s: Selected) => s.addOn.id == id
  }

  /** The entry is for some other add-on. */
  function LacksId(id: Id): Selected -> bool
  {
    (s: Selected) => s.addOn.id != id
  }

  /** No add-on id occurs twice. */
  predicate UniqueIds(sel: seq<Selected>)
  {
    forall i, j :: 0 <= i < j < |sel| ==> sel[i].addOn.id != sel[j].addOn.id
  }

  /** The shape every reachable selection has: unique ids, every quantity at least 1. */
  predicate WellFormed(sel: seq<Selected>)
  {
    && UniqueIds(sel)
    && forall i :: 0 <= i < |sel| ==> sel[i].quantity >= 1
  }

  /**
   * `updateAddOnQuantity(addOn, q)`: quantity 0 drops every entry with the
   * add-on's id; otherwise the first entry with that id gets quantity `q`
   * (keeping its stored add-on fields), or a new entry is appended.
   */
  function UpdateAddOnQuantity(sel: seq<Selected>, a: AddOn, q: nat): (r: seq<Selected>)
    ensures q == 0 ==> forall x :: x in r <==> x in sel && x.addOn.id != a.id
    ensures q == 0 ==> IsSubsequence(r, sel)
    ensures q == 0 ==> forall x :: multiset(r)[x] == if x.addOn.id != a.id then multiset(sel)[x] else 0
    ensures q == 0 && FirstIndex(sel, HasId(a.id)).None? ==> r == sel
    ensures q > 0 && FirstIndex(sel, HasId(a.id)).Some? ==>
      var k := FirstIndex(sel, HasId(a.id)).value;
      && |r| == |sel|
      && r[k] == Selected(sel[k].addOn, q)
      && forall j :: 0 <= j < |sel| && j != k ==> r[j] == sel[j]
    ensures q > 0 && FirstIndex(sel, HasId(a.id)).None? ==>
      |r| == |sel| + 1 && r[..|sel|] == sel && r[|sel|] == Selected(a, q)
  {
    if q == 0 then
      FilterIsSubsequence(sel, LacksId(a.id));
      assert forall x :: multiset(Filter(sel, LacksId(a.id)))[x] == if x.addOn.id != a.id then multiset(sel)[x] else 0 by {
        forall x {
          FilterCount(sel, LacksId(a.id), x);
        }
      }
      assert FirstIndex(sel, HasId(a.id)).None? ==> Filter(sel, LacksId(a.id)) == sel by {
        if FirstIndex(sel, HasId(a.id)).None? {
          FilterKeepsAll(sel, LacksId(a.id));
        }
      }
      Filter(sel, LacksId(a.id))
    else
      match FirstIndex(sel, HasId(a.id))
      case Some(k) => sel[k := Selected(sel[k].addOn, q)]
      case None => sel + [Selected(a, q)]
  }

  /**
   * The count the modal shows next to an add-on:
   * `selectedAddOns.find(a => a.id === id)?.quantity || 0`.
   */
  function DisplayedQuantity(sel: seq<Selected>, id: Id): (q: nat)
    ensures (forall i :: 0 <= i < |sel| ==> sel[i].addOn.id != id) ==> q == 0
    ensures forall k :: 0 <= k < |sel| && sel[k].addOn.id == id && (forall j :: 0 <= j < k ==> sel[j].addOn.id != id) ==>
      q == sel[k].quantity
  {
    match FirstIndex(sel, HasId(id))
    case None => 0
    case Some(k) => sel[k].quantity
  }

  /** In a selection with unique ids, two entries with the same id are the same entry. */
  lemma UniqueEntry(sel: seq<Selected>, x: Selected, y: Selected)
    requires UniqueIds(sel)
    requires x in sel && y in sel && x.addOn.id == y.addOn.id
    ensures x == y
  {
    var i :| 0 <= i < |sel| && sel[i] == x;
    var j :| 0 <= j < |sel| && sel[j] == y;
  }

  /** Unique ids of a selection with one entry in front. */
  lemma UniqueIdsCons(x: Selected, t: seq<Selected>)
    requires UniqueIds(t)
    requires forall y :: y in t ==> y.addOn.id != x.addOn.id
    ensures UniqueIds([x] + t)
  {
    var r := [x] + t;
    forall i, j | 0 <= i < j < |r|
      ensures r[i].addOn.id != r[j].addOn.id
    {
      assert r[j] == t[j - 1];
      if i > 0 {
        assert r[i] == t[i - 1];
      } else {
        assert t[j - 1] in t;
      }
    }
  }

  /** Unique ids survive dropping the first entry. */
  lemma UniqueIdsTail(sel: seq<Selected>)
    requires UniqueIds(sel) && |sel| > 0
    ensures UniqueIds(sel[1..])
    ensures forall y :: y in sel[1..] ==> y.addOn.id != sel[0].addOn.id
  {
    forall i, j | 0 <= i < j < |sel[1..]|
      ensures sel[1..][i].addOn.id != sel[1..][j].addOn.id
    {
      assert sel[1..][i] == sel[i + 1] && sel[1..][j] == sel[j + 1];
    }
    forall y | y in sel[1..]
      ensures y.addOn.id != sel[0].addOn.id
    {
      var m :| 0 <= m < |sel[1..]| && sel[1..][m] == y;
      assert sel[m + 1] == y;
    }
  }

  /** Filtering a selection keeps its ids unique. */
  lemma {:induction false} FilterKeepsUniqueIds(sel: seq<Selected>, p: Selected -> bool)
    requires UniqueIds(sel)
    ensures UniqueIds(Filter(sel, p))
    decreases |sel|
  {
    if |sel| > 0 {
      var rest := Filter(sel[1..], p);
      UniqueIdsTail(sel);
      FilterKeepsUniqueIds(sel[1..], p);
      if p(sel[0]) {
        assert Filter(sel, p) == [sel[0]] + rest;
        UniqueIdsCons(sel[0], rest);
      } else {
        assert Filter(sel, p) == rest;
      }
    }
  }

  /** Every update maps a well-formed selection to a well-formed selection. */
  lemma UpdatePreservesWellFormed(sel: seq<Selected>, a: AddOn, q: nat)
    requires WellFormed(sel)
    ensures WellFormed(UpdateAddOnQuantity(sel, a, q))
  {
    var r := UpdateAddOnQuantity(sel, a, q);
    if q == 0 {
      FilterKeepsUniqueIds(sel, LacksId(a.id));
      forall i | 0 <= i < |r|
        ensures r[i].quantity >= 1
      {
        assert r[i] in sel;
      }
    } else {
      match FirstIndex(sel, HasId(a.id))
      case Some(k) =>
        forall i, j | 0 <= i < j < |r|
          ensures r[i].addOn.id != r[j].addOn.id
        {
          assert r[i].addOn.id == sel[i].addOn.id && r[j].addOn.id == sel[j].addOn.id;
        }
      case None =>
        forall i, j | 0 <= i < j < |r|
          ensures r[i].addOn.id != r[j].addOn.id
        {
          if j == |sel| {
            assert !HasId(a.id)(sel[i]);
          } else {
            assert r[i] == sel[i] && r[j] == sel[j];
          }
        }
    }
  }

  /**
   * In a well-formed selection, quantity 0 removes exactly the entry found for
   * the add-on's id and keeps every other entry in order.
   */
  lemma RemoveDeletesFoundEntry(sel: seq<Selected>, a: AddOn, k: nat)
    requires WellFormed(sel)
    requires FirstIndex(sel, HasId(a.id)) == Some(k)
    ensures UpdateAddOnQuantity(sel, a, 0) == sel[..k] + sel[k + 1..]
  {
    var p := LacksId(a.id);
    var before, after := sel[..k], sel[k + 1..];
    assert sel == before + [sel[k]] + after;
    assert forall i :: 0 <= i < |before| ==> p(before[i]) by {
      forall i | 0 <= i < |before|
        ensures p(before[i])
      {
        assert !HasId(a.id)(sel[i]);
      }
    }
    assert forall i :: 0 <= i < |after| ==> p(after[i]) by {
      forall i | 0 <= i < |after|
        ensures p(after[i])
      {
        assert after[i] == sel[k + 1 + i];
        assert sel[k].addOn.id != sel[k + 1 + i].addOn.id;
      }
    }
    FilterDropsOne(before, sel[k], after, p);
    assert UpdateAddOnQuantity(sel, a, 0) == Filter(sel, p);
  }

  /** The position of the one entry with a given id in a selection with unique ids. */
  lemma FirstIndexOfUnique(sel: seq<Selected>, m: nat)
    requires UniqueIds(sel) && m < |sel|
    ensures FirstIndex(sel, HasId(sel[m].addOn.id)) == Some(m)
  {
    assert HasId(sel[m].addOn.id)(sel[m]);
  }

  /** The displayed count of an id is the quantity of the one entry carrying it, or 0. */
  lemma DisplayedQuantityOfEntry(sel: seq<Selected>, x: Selected)
    requires UniqueIds(sel) && x in sel
    ensures DisplayedQuantity(sel, x.addOn.id) == x.quantity
  {
    var m :| 0 <= m < |sel| && sel[m] == x;
    FirstIndexOfUnique(sel, m);
  }

  /**
   * Put-get law of the upsert: after setting an add-on's quantity to `q` the
   * modal shows `q` for it.
   */
  lemma UpdateThenDisplay(sel: seq<Selected>, a: AddOn, q: nat)
    ensures DisplayedQuantity(UpdateAddOnQuantity(sel, a, q), a.id) == q
  {
    var r := UpdateAddOnQuantity(sel, a, q);
    if q == 0 {
      assert forall i :: 0 <= i < |r| ==> !HasId(a.id)(r[i]) by {
        forall i | 0 <= i < |r| ensures !HasId(a.id)(r[i]) {
          assert r[i] in r;
        }
      }
    } else {
      match FirstIndex(sel, HasId(a.id))
      case Some(k) =>
        FirstIndexIs(r, HasId(a.id), k);
      case None =>
        FirstIndexIs(r, HasId(a.id), |sel|);
    }
  }

  /** Put-put independence of the upsert: setting one add-on's quantity leaves every other add-on's count. */
  lemma UpdateKeepsOtherDisplay(sel: seq<Selected>, a: AddOn, q: nat, b: Id)
    requires b != a.id
    ensures DisplayedQuantity(UpdateAddOnQuantity(sel, a, q), b) == DisplayedQuantity(sel, b)
  {
    var r := UpdateAddOnQuantity(sel, a, q);
    if q == 0 {
      FilterKeepsDisplay(sel, a.id, b);
    } else {
      match FirstIndex(sel, HasId(a.id))
      case None =>
        FirstIndexSnoc(sel, Selected(a, q), HasId(b));
      case Some(k) =>
        match FirstIndex(sel, HasId(b))
        case None =>
          assert forall i :: 0 <= i < |r| ==> !HasId(b)(r[i]) by {
            forall i | 0 <= i < |r| ensures !HasId(b)(r[i]) {
              if i != k {
                assert r[i] == sel[i];
              }
            }
          }
        case Some(m) =>
          assert r[m] == sel[m];
          FirstIndexIs(r, HasId(b), m);
    }
  }

  /** The displayed count of an entry at the front of a selection. */
  lemma DisplayedQuantityCons(x: Selected, t: seq<Selected>, b: Id)
    ensures DisplayedQuantity([x] + t, b) == if x.addOn.id == b then x.quantity else DisplayedQuantity(t, b)
  {
    assert ([x] + t)[0] == x;
    assert ([x] + t)[1..] == t;
  }

  /** Dropping the entries of one id leaves the displayed count of every other id. */
  lemma {:induction false} FilterKeepsDisplay(sel: seq<Selected>, a: Id, b: Id)
    requires b != a
    ensures DisplayedQuantity(Filter(sel, LacksId(a)), b) == DisplayedQuantity(sel, b)
    decreases |sel|
  {
    if |sel| > 0 {
      var x, t := sel[0], sel[1..];
      assert sel == [x] + t;
      FilterKeepsDisplay(t, a, b);
      DisplayedQuantityCons(x, t, b);
      if LacksId(a)(x) {
        assert Filter(sel, LacksId(a)) == [x] + Filter(t, LacksId(a));
        DisplayedQuantityCons(x, Filter(t, LacksId(a)), b);
      } else {
        assert Filter(sel, LacksId(a)) == Filter(t, LacksId(a));
      }
    }
  }
}
