/**
 * The menu page: which items appear in the popular section and in each
 * category section, and the cart quantity each item's card is given.
 */
module Menu {
  import opened Seqs
  import opened Catalog

  /** `item => item.popular`. */
  const IsPopular: MenuItem -> bool := (m: MenuItem) => m.popular

  /** `item => item.category === c`. */
  function InMenuCategory(c: Id): MenuItem -> bool
  {
    (m: MenuItem) => m.category == c
  }

  /** `cartItem => cartItem.id === id`. */
  function LineFor(id: Id): CartItem -> bool
  {
    (c: CartItem) => c.id == id
  }

  /** `menuItems.filter(item => item.popular)`: exactly the popular items, in catalogue order. */
  function PopularItems(items: seq<MenuItem>): (r: seq<MenuItem>)
    ensures forall m :: m in r <==> m in items && m.popular
    ensures forall m :: multiset(r)[m] == if m.popular then multiset(items)[m] else 0
    ensures IsSubsequence(r, items)
  {
    FilterIsSubsequence(items, IsPopular);
    assert forall m :: multiset(Filter(items, IsPopular))[m] == if m.popular then multiset(items)[m] else 0 by {
      forall m {
        FilterCount(items, IsPopular, m);
      }
    }
    Filter(items, IsPopular)
  }

  /** The popular section: absent when nothing is popular, else the first three popular items. */
  function PopularSection(items: seq<MenuItem>): (r: Option<seq<MenuItem>>)
    ensures r.None? <==> forall i :: 0 <= i < |items| ==> !items[i].popular
    ensures r.Some? ==> 1 <= |r.value| <= 3
    ensures r.Some? ==> |r.value| <= |PopularItems(items)| && r.value == PopularItems(items)[..|r.value|]
    ensures r.Some? ==> (|r.value| < 3 ==> r.value == PopularItems(items))
  {
    var popular := PopularItems(items);
    if |popular| == 0 then
      assert forall i :: 0 <= i < |items| ==> !items[i].popular by {
        forall i | 0 <= i < |items| ensures !items[i].popular {
          assert items[i] in items;
        }
      }
      None
    else
      assert popular[0] in items;
      Some(if |popular| <= 3 then popular else popular[..3])
  }

  /** `menuItems.filter(item => item.category === c)`. */
  function CategoryItems(items: seq<MenuItem>, c: Id): (r: seq<MenuItem>)
    ensures forall m :: m in r <==> m in items && m.category == c
    ensures IsSubsequence(r, items)
  {
    FilterIsSubsequence(items, InMenuCategory(c));
    Filter(items, InMenuCategory(c))
  }

  /** A category's items repeat each item of that category as often as the catalogue does, and hold no other. */
  lemma CategoryItemsCount(items: seq<MenuItem>, c: Id)
    ensures forall m :: multiset(CategoryItems(items, c))[m] == if m.category == c then multiset(items)[m] else 0
  {
    forall m {
      FilterCount(items, InMenuCategory(c), m);
    }
  }

  /** `cartItems.find(line => line.id === id)?.quantity || 0`. */
  function CardQuantity(cart: seq<CartItem>, id: Id): (q: int)
    ensures (forall i :: 0 <= i < |cart| ==> cart[i].id != id) ==> q == 0
    ensures forall k :: 0 <= k < |cart| && cart[k].id == id && (forall j :: 0 <= j < k ==> cart[j].id != id) ==>
      q == cart[k].quantity
  {
    match FirstIndex(cart, LineFor(id))
    case None => 0
    case Some(k) =>
      cart[k].quantity
  }

  /** A menu item card and the quantity it is given. */
  datatype MenuCard = MenuCard(item: MenuItem, quantity: int)

  /** One category heading with its cards. */
  datatype Section = Section(category: Category, cards: seq<MenuCard>)

  /** A card for each item, in order, each given its cart quantity. */
  function Cards(items: seq<MenuItem>, cart: seq<CartItem>): (r: seq<MenuCard>)
    ensures |r| == |items|
    ensures forall i :: 0 <= i < |r| ==> r[i] == MenuCard(items[i], CardQuantity(cart, items[i].id))
  {
    seq(|items|, i requires 0 <= i < |items| => MenuCard(items[i], CardQuantity(cart, items[i].id)))
  }

  /** The items on a run of cards. */
  function ItemsOf(cards: seq<MenuCard>): (r: seq<MenuItem>)
    ensures |r| == |cards|
    ensures forall i :: 0 <= i < |r| ==> r[i] == cards[i].item
  {
    seq(|cards|, i requires 0 <= i < |cards| => cards[i].item)
  }

  /** The section one category contributes: none when it has no items. */
  function SectionFor(c: Category, items: seq<MenuItem>, cart: seq<CartItem>): (r: seq<Section>)
    ensures |r| <= 1
    ensures |r| == 1 <==> |CategoryItems(items, c.id)| > 0
    ensures |r| == 1 ==> r[0].category == c && ItemsOf(r[0].cards) == CategoryItems(items, c.id)
  {
    var here := CategoryItems(items, c.id);
    if |here| == 0 then [] else [Section(c, Cards(here, cart))]
  }

  /** `categories.map(...)`: a section per category that has items, in category order. */
  function Sections(categories: seq<Category>, items: seq<MenuItem>, cart: seq<CartItem>): (r: seq<Section>)
    ensures |r| <= |categories|
    ensures forall i :: 0 <= i < |r| ==> r[i].category in categories
  {
    if |categories| == 0 then []
    else SectionFor(categories[0], items, cart) + Sections(categories[1..], items, cart)
  }

  /** The categories of the sections, in page order. */
  function SectionCategories(sections: seq<Section>): (r: seq<Category>)
    ensures |r| == |sections|
    ensures forall i :: 0 <= i < |r| ==> r[i] == sections[i].category
  {
    seq(|sections|, i requires 0 <= i < |sections| => sections[i].category)
  }

  lemma SectionCategoriesConcat(a: seq<Section>, b: seq<Section>)
    ensures SectionCategories(a + b) == SectionCategories(a) + SectionCategories(b)
  {
  }

  /** The whole page. */
  datatype MenuPage = MenuPage(popular: Option<seq<MenuCard>>, sections: seq<Section>)

  /**
   * The popular section appears exactly when some item is popular and shows
   * the top popular items, each card given its cart quantity; below it come
   * the category sections.
   */
  function ViewMenu(categories: seq<Category>, items: seq<MenuItem>, cart: seq<CartItem>): (p: MenuPage)
    ensures p.popular.Some? <==> PopularSection(items).Some?
    ensures p.popular.Some? ==> ItemsOf(p.popular.value) == PopularSection(items).value
    ensures p.popular.Some? ==> forall c :: c in p.popular.value ==> c.quantity == CardQuantity(cart, c.item.id)
    ensures p.sections == Sections(categories, items, cart)
  {
    MenuPage(
      match PopularSection(items)
      case None => None
      case Some(top) => Some(Cards(top, cart)),
      Sections(categories, items, cart))
  }

  /** Every card in a category section is given the quantity of the first cart line for its item, or 0. */
  lemma {:induction false} SectionCardsCarryCartQuantity(categories: seq<Category>, items: seq<MenuItem>, cart: seq<CartItem>)
    ensures forall s, c :: s in Sections(categories, items, cart) && c in s.cards ==>
      c.quantity == CardQuantity(cart, c.item.id)
    decreases |categories|
  {
    if |categories| > 0 {
      SectionCardsCarryCartQuantity(categories[1..], items, cart);
    }
  }

  /** Each section is non-empty and holds exactly its category's items, in catalogue order. */
  lemma {:induction false} SectionsAreCategoryFilters(categories: seq<Category>, items: seq<MenuItem>, cart: seq<CartItem>)
    ensures forall s :: s in Sections(categories, items, cart) ==>
      && |s.cards| > 0
      && ItemsOf(s.cards) == CategoryItems(items, s.category.id)
    decreases |categories|
  {
    if |categories| > 0 {
      var head := SectionFor(categories[0], items, cart);
      var rest := Sections(categories[1..], items, cart);
      SectionsAreCategoryFilters(categories[1..], items, cart);
      assert Sections(categories, items, cart) == head + rest;
      assert |head| == 1 ==> ItemsOf(head[0].cards) == CategoryItems(items, head[0].category.id);
    }
  }

  /** Sections follow the order of the categories, each category at most once per listing. */
  lemma {:induction false} SectionsFollowCategoryOrder(categories: seq<Category>, items: seq<MenuItem>, cart: seq<CartItem>)
    ensures IsSubsequence(SectionCategories(Sections(categories, items, cart)), categories)
    decreases |categories|
  {
    if |categories| > 0 {
      var x := categories[0];
      var head := SectionFor(x, items, cart);
      var rest := Sections(categories[1..], items, cart);
      SectionsFollowCategoryOrder(categories[1..], items, cart);
      var cats := SectionCategories(Sections(categories, items, cart));
      SectionCategoriesConcat(head, rest);
      IsSubsequenceCons(x, SectionCategories(rest), categories[1..]);
      assert categories == [x] + categories[1..];
      if |head| == 1 {
        assert SectionCategories(head) == [x];
        assert cats == [x] + SectionCategories(rest);
      } else {
        assert SectionCategories(head) == [];
        assert cats == SectionCategories(rest);
      }
    }
  }

  /** A category gets a section exactly when it is listed and has at least one item. */
  lemma {:induction false} SectionIffCategoryHasItems(categories: seq<Category>, items: seq<MenuItem>, cart: seq<CartItem>, c: Category)
    ensures c in SectionCategories(Sections(categories, items, cart))
        <==> c in categories && |CategoryItems(items, c.id)| > 0
    decreases |categories|
  {
    if |categories| > 0 {
      var x := categories[0];
      var head := SectionFor(x, items, cart);
      var rest := Sections(categories[1..], items, cart);
      SectionIffCategoryHasItems(categories[1..], items, cart, c);
      SectionCategoriesConcat(head, rest);
      assert c in categories <==> c == x || c in categories[1..] by {
        assert categories == [x] + categories[1..];
      }
      assert c in SectionCategories(head) <==> c == x && |head| == 1 by {
        if |head| == 1 {
          assert SectionCategories(head) == [x];
        } else {
          assert SectionCategories(head) == [];
        }
      }
    }
  }

  /**
   * An item appears in some category section exactly when it is in the
   * catalogue and some listed category has its category id; items of an
   * unlisted category are shown in no section.
   */
  lemma {:induction false} ItemShownIffCategoryListed(categories: seq<Category>, items: seq<MenuItem>, cart: seq<CartItem>, m: MenuItem)
    ensures (exists s :: s in Sections(categories, items, cart) && m in ItemsOf(s.cards))
        <==> m in items && exists c :: c in categories && c.id == m.category
    decreases |categories|
  {
    if |categories| > 0 {
      var here := CategoryItems(items, categories[0].id);
      var rest := Sections(categories[1..], items, cart);
      var sections := Sections(categories, items, cart);
      ItemShownIffCategoryListed(categories[1..], items, cart, m);
      assert ItemsOf(Cards(here, cart)) == here;
      assert forall c :: c in categories <==> c == categories[0] || c in categories[1..];
      if |here| == 0 {
        assert sections == rest;
        assert here == [];
        assert !(m in items && m.category == categories[0].id);
      } else {
        var first := Section(categories[0], Cards(here, cart));
        assert sections == [first] + rest;
        assert forall s :: s in sections <==> s == first || s in rest;
        if m in items && m.category == categories[0].id {
          assert m in ItemsOf(first.cards);
        }
      }
    }
  }

  /** Every card on the page, popular or in a category section, is given its item's cart quantity. */
  lemma EveryPageCardCarriesCartQuantity(categories: seq<Category>, items: seq<MenuItem>, cart: seq<CartItem>)
    ensures var p := ViewMenu(categories, items, cart);
      && (p.popular.Some? ==> forall c :: c in p.popular.value ==> c.quantity == CardQuantity(cart, c.item.id))
      && (forall s, c :: s in p.sections && c in s.cards ==> c.quantity == CardQuantity(cart, c.item.id))
  {
    SectionCardsCarryCartQuantity(categories, items, cart);
  }
}
