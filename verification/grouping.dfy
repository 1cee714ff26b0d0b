/**
 * `groupedAddOns`: the modal's add-ons grouped by category, as the `reduce`
 * into a record builds it. Groups appear in the order their category is first
 * met (the record's key insertion order), each holding its add-ons in
 * catalogue order.
 */
module Grouping {
  import opened Seqs
  import opened Catalog

  /** One key of the record and the list stored under it. */
  datatype Group = Group(category: string, addOns: seq<AddOn>)

  /** The add-on belongs to category `c`. */
  function InCategory(c: string): AddOn -> bool
  {
    (a: AddOn) => a.category == c
  }

  /** The group is stored under key `c`. */
  function KeyedBy(c: string): Group -> bool
  {
    (g: Group) => g.category == c
  }

  /**
   * One step of the reduce: push onto the existing list, or create the key
   * with `[a]`. Keys already present keep their place; a new key is added
   * only at the end, and only when no group has the add-on's category.
   */
  function GroupStep(groups: seq<Group>, a: AddOn): (r: seq<Group>)
    ensures |groups| <= |r| <= |groups| + 1
    ensures forall i :: 0 <= i < |groups| ==> r[i].category == groups[i].category
    ensures |r| > |groups| <==> forall i :: 0 <= i < |groups| ==> groups[i].category != a.category
    ensures |r| > |groups| ==> r[|groups|] == Group(a.category, [a])
    ensures forall i :: 0 <= i < |groups| ==>
      r[i].addOns == groups[i].addOns || (groups[i].category == a.category && r[i].addOns == groups[i].addOns + [a])
  {
    match FirstIndex(groups, KeyedBy(a.category))
    case Some(k) => groups[k := Group(groups[k].category, groups[k].addOns + [a])]
    case None => groups + [Group(a.category, [a])]
  }

  /** The reduce over `item.addOns`, starting from the empty record: at most one group per add-on, and none only for no add-ons. */
  function GroupByCategory(addOns: seq<AddOn>): (r: seq<Group>)
    ensures |r| <= |addOns|
    ensures |r| == 0 <==> |addOns| == 0
    decreases |addOns|
  {
    if |addOns| == 0 then []
    else GroupStep(GroupByCategory(addOns[..|addOns| - 1]), addOns[|addOns| - 1])
  }

  /** Number of add-ons held over all groups. */
  function TotalSize(groups: seq<Group>): nat
  {
    if |groups| == 0 then 0 else |groups[0].addOns| + TotalSize(groups[1..])
  }

  /** Index in `addOns` of the first add-on of category `c` (meaningful when there is one). */
  function FirstSeen(addOns: seq<AddOn>, c: string): nat
  {
    match FirstIndex(addOns, InCategory(c))
    case Some(k) => k
    case None => |addOns|
  }

  /** No key occurs twice. */
  predicate DistinctKeys(groups: seq<Group>)
  {
    forall i, j :: 0 <= i < j < |groups| ==> groups[i].category != groups[j].category
  }

  /** Each group holds exactly the add-ons of its category, in source order. */
  predicate ExactGroups(groups: seq<Group>, addOns: seq<AddOn>)
  {
    forall i :: 0 <= i < |groups| ==> groups[i].addOns == Filter(addOns, InCategory(groups[i].category))
  }

  /** No group is empty. */
  predicate NonEmptyGroups(groups: seq<Group>)
  {
    forall i :: 0 <= i < |groups| ==> |groups[i].addOns| > 0
  }

  /** Every add-on's category has a group. */
  predicate Covers(groups: seq<Group>, addOns: seq<AddOn>)
  {
    forall a :: a in addOns ==> exists i :: 0 <= i < |groups| && groups[i].category == a.category
  }

  /** Where each group's category first occurs, in group order. */
  function FirstSeens(groups: seq<Group>, addOns: seq<AddOn>): (r: seq<nat>)
    ensures |r| == |groups|
    ensures forall i :: 0 <= i < |r| ==> r[i] == FirstSeen(addOns, groups[i].category)
  {
    seq(|groups|, i requires 0 <= i < |groups| => FirstSeen(addOns, groups[i].category))
  }

  /** Strictly increasing. */
  predicate Increasing(xs: seq<nat>)
  {
    forall i, j :: 0 <= i < j < |xs| ==> xs[i] < xs[j]
  }

  /** Groups follow the order in which their categories first occur. */
  predicate FirstSeenOrder(groups: seq<Group>, addOns: seq<AddOn>)
  {
    Increasing(FirstSeens(groups, addOns))
  }

  /**
   * `groups` partitions `addOns` by category: keys are distinct, each group
   * is exactly the add-ons of its category in source order, no group is
   * empty, every add-on's category has a group, and groups follow the order
   * in which their categories first occur.
   */
  predicate Partitions(groups: seq<Group>, addOns: seq<AddOn>)
  {
    && DistinctKeys(groups)
    && ExactGroups(groups, addOns)
    && NonEmptyGroups(groups)
    && Covers(groups, addOns)
    && FirstSeenOrder(groups, addOns)
  }

  lemma StepDistinct(groups: seq<Group>, x: AddOn)
    requires DistinctKeys(groups)
    ensures DistinctKeys(GroupStep(groups, x))
  {
  }

  lemma StepCovers(groups: seq<Group>, s: seq<AddOn>, x: AddOn)
    requires Covers(groups, s)
    ensures Covers(GroupStep(groups, x), s + [x])
  {
    var g' := GroupStep(groups, x);
    forall a | a in s + [x]
      ensures exists i :: 0 <= i < |g'| && g'[i].category == a.category
    {
      if a in s {
        var i :| 0 <= i < |groups| && groups[i].category == a.category;
        assert g'[i].category == a.category;
      } else if |g'| > |groups| {
        assert g'[|groups|].category == a.category;
      } else {
        var i :| 0 <= i < |groups| && groups[i].category == x.category;
        assert g'[i].category == a.category;
      }
    }
  }

  lemma StepExact(groups: seq<Group>, s: seq<AddOn>, x: AddOn)
    requires DistinctKeys(groups) && ExactGroups(groups, s) && Covers(groups, s)
    ensures ExactGroups(GroupStep(groups, x), s + [x])
    ensures NonEmptyGroups(groups) ==> NonEmptyGroups(GroupStep(groups, x))
  {
    var g' := GroupStep(groups, x);
    forall i | 0 <= i < |g'|
      ensures g'[i].addOns == Filter(s + [x], InCategory(g'[i].category))
      ensures NonEmptyGroups(groups) ==> |g'[i].addOns| > 0
    {
      var c := g'[i].category;
      FilterSnoc(s, x, InCategory(c));
      match FirstIndex(groups, KeyedBy(x.category))
      case Some(k) =>
        assert KeyedBy(x.category)(groups[k]);
        if i != k {
          assert groups[i].category != x.category;
        }
      case None =>
        if i == |groups| {
          forall j | 0 <= j < |s|
            ensures !InCategory(x.category)(s[j])
          {
            assert s[j] in s;
          }
          FilterEmptyIff(s, InCategory(x.category));
        }
    }
  }

  /** The first occurrence of a category that has a group lies inside the add-ons. */
  lemma GroupSeen(groups: seq<Group>, s: seq<AddOn>, i: nat)
    requires ExactGroups(groups, s) && NonEmptyGroups(groups) && i < |groups|
    ensures FirstIndex(s, InCategory(groups[i].category)).Some?
    ensures FirstSeen(s, groups[i].category) < |s|
  {
    var a := groups[i].addOns[0];
    assert a in Filter(s, InCategory(groups[i].category));
    var j :| 0 <= j < |s| && s[j] == a;
    assert InCategory(groups[i].category)(s[j]);
  }

  lemma StepOrder(groups: seq<Group>, s: seq<AddOn>, x: AddOn)
    requires ExactGroups(groups, s) && NonEmptyGroups(groups) && Covers(groups, s)
    requires FirstSeenOrder(groups, s)
    ensures FirstSeenOrder(GroupStep(groups, x), s + [x])
  {
    var g' := GroupStep(groups, x);
    var before, after := FirstSeens(groups, s), FirstSeens(g', s + [x]);
    assert forall i :: 0 <= i < |before| ==> after[i] == before[i] < |s| by {
      forall i | 0 <= i < |before|
        ensures after[i] == before[i] < |s|
      {
        GroupSeen(groups, s, i);
        FirstIndexSnoc(s, x, InCategory(groups[i].category));
        assert g'[i].category == groups[i].category;
      }
    }
    assert |after| > |before| ==> after[|before|] == |s| by {
      if |after| > |before| {
        FirstIndexSnoc(s, x, InCategory(x.category));
        forall j | 0 <= j < |s|
          ensures !InCategory(x.category)(s[j])
        {
          assert s[j] in s;
        }
      }
    }
    IncreasingExtends(before, after, |s|);
  }

  /** Appending at most one value above all others to an increasing sequence keeps it increasing. */
  lemma IncreasingExtends(before: seq<nat>, after: seq<nat>, bound: nat)
    requires Increasing(before)
    requires |before| <= |after| <= |before| + 1
    requires forall i :: 0 <= i < |before| ==> after[i] == before[i] < bound
    requires |after| > |before| ==> after[|before|] == bound
    ensures Increasing(after)
  {
    forall i, j | 0 <= i < j < |after|
      ensures after[i] < after[j]
    {
      if j < |before| {
        assert before[i] < before[j];
      }
    }
  }

  /** One reduce step keeps the partition property. */
  lemma GroupStepPartitions(groups: seq<Group>, s: seq<AddOn>, x: AddOn)
    requires Partitions(groups, s)
    ensures Partitions(GroupStep(groups, x), s + [x])
  {
    StepDistinct(groups, x);
    StepCovers(groups, s, x);
    StepExact(groups, s, x);
    StepOrder(groups, s, x);
  }

  /** The reduce partitions the add-ons by category. */
  lemma {:induction false} GroupingPartitions(addOns: seq<AddOn>)
    ensures Partitions(GroupByCategory(addOns), addOns)
    decreases |addOns|
  {
    if |addOns| > 0 {
      var init, x := addOns[..|addOns| - 1], addOns[|addOns| - 1];
      assert addOns == init + [x];
      GroupingPartitions(init);
      GroupStepPartitions(GroupByCategory(init), init, x);
    }
  }

  /** Total size splits over concatenation. */
  lemma {:induction false} TotalSizeConcat(a: seq<Group>, b: seq<Group>)
    ensures TotalSize(a + b) == TotalSize(a) + TotalSize(b)
    decreases |a|
  {
    if |a| == 0 {
      assert a + b == b;
    } else {
      assert (a + b)[1..] == a[1..] + b;
      TotalSizeConcat(a[1..], b);
    }
  }

  /** Replacing one group changes the total by the change in that group's size. */
  lemma {:induction false} TotalSizeUpdate(groups: seq<Group>, k: nat, g: Group)
    requires k < |groups|
    ensures TotalSize(groups[k := g]) == TotalSize(groups) - |groups[k].addOns| + |g.addOns|
    decreases |groups|
  {
    if k > 0 {
      assert groups[k := g][1..] == groups[1..][k - 1 := g];
      TotalSizeUpdate(groups[1..], k - 1, g);
    } else {
      assert groups[k := g][1..] == groups[1..];
    }
  }

  /** Grouping neither loses nor duplicates add-ons. */
  lemma {:induction false} GroupingPreservesCount(addOns: seq<AddOn>)
    ensures TotalSize(GroupByCategory(addOns)) == |addOns|
    decreases |addOns|
  {
    if |addOns| > 0 {
      var init, x := addOns[..|addOns| - 1], addOns[|addOns| - 1];
      var groups := GroupByCategory(init);
      GroupingPreservesCount(init);
      match FirstIndex(groups, KeyedBy(x.category))
      case Some(k) =>
        TotalSizeUpdate(groups, k, Group(groups[k].category, groups[k].addOns + [x]));
      case None =>
        TotalSizeConcat(groups, [Group(x.category, [x])]);
        assert [Group(x.category, [x])][1..] == [];
    }
  }
}
