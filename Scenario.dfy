/**
  A walk through the page with three products: two "tops" at 20 and 50 and
  one pair of "shoes" at 30, showing what a caller can conclude from the
  handlers' contracts alone.
 */
module ProductsScenario {
  import opened Sequences
  import opened PriceText
  import opened Catalog
  import opened ProductsView

  function Item(id: int, category: string, price: real): Product {
    Product(id, "", "", category, price, 0.0)
  }

  const Top20 := Item(1, "tops", 20.0)
  const Top50 := Item(2, "tops", 50.0)
  const Shoes30 := Item(3, "shoes", 30.0)
  const Shop := [Top20, Top50, Shoes30]

  /** Filtering the three products, one step of Filter at a time. */
  lemma FilterShop(keep: Product -> bool)
    ensures Sequences.Filter(Shop, keep)
            == (if keep(Top20) then [Top20] else []) + (if keep(Top50) then [Top50] else [])
               + (if keep(Shoes30) then [Shoes30] else [])
  {
    assert Sequences.Filter([Shoes30], keep) == if keep(Shoes30) then [Shoes30] else [] by {
      assert [Shoes30][1..] == [];
    }
    assert Sequences.Filter([Top50, Shoes30], keep)
           == (if keep(Top50) then [Top50] else []) + Sequences.Filter([Shoes30], keep) by {
      assert [Top50, Shoes30][1..] == [Shoes30];
    }
    assert Sequences.Filter(Shop, keep)
           == (if keep(Top20) then [Top20] else []) + Sequences.Filter([Top50, Shoes30], keep) by {
      assert Shop[1..] == [Top50, Shoes30];
    }
  }

  lemma TopsShown()
    ensures Filtered(Shop, "tops", "") == [Top20, Top50]
  {
    FilterShop(Admissible("tops", ""));
  }

  lemma CheapTopsShown()
    ensures Filtered(Shop, "tops", "25") == [Top20]
  {
    ParseNatText(25);
    assert NatText(25) == "25";
    FilterShop(Admissible("tops", "25"));
  }

  lemma NoCheapShoes()
    ensures Filtered(Shop, "shoes", "25") == []
  {
    ParseNatText(25);
    assert NatText(25) == "25";
    FilterShop(Admissible("shoes", "25"));
  }

  lemma TextPriceIgnored()
    ensures Filtered(Shop, "", "abc") == Shop
  {
    ParseWithoutDigitsIsNaN("abc");
    NaNPriceIgnored(Shop, "", "abc");
    NoCriteriaShowsAll(Shop);
  }

  lemma OtherTopRecommended()
    ensures Recommendations(Shop, [Top20]) == [Top50]
  {
    FilterShop(RecommendableTest([Top20]));
  }

  lemma ShopCategories()
    ensures Categories(Shop) == ["tops", "shoes"]
  {
    var column := CategoryColumn(Shop);
    assert column == ["tops", "tops", "shoes"];
    assert FirstIndex(column, "tops") == 0;
    assert FirstIndex(column, "shoes") == 2 by {
      assert column[1..] == ["tops", "shoes"];
      assert column[1..][1..] == ["shoes"];
    }
    assert forall c :: c in ["tops", "shoes"] <==> exists p :: p in Shop && p.category == c by {
      assert Top20 in Shop && Shoes30 in Shop;
    }
    CategoriesDetermined(Shop, ["tops", "shoes"]);
  }

  method Walkthrough() {
    var page := new Products(Shop);
    assert page.filter == Shop;

    page.HandleCategory("tops");
    TopsShown();
    assert page.filter == [Top20, Top50];

    page.HandlePrice("25");
    CheapTopsShown();
    assert page.filter == [Top20];

    page.HandleCategory("shoes");
    NoCheapShoes();
    assert page.filter == [];

    page.ResetFilters();
    assert page.filter == Shop;
    page.HandlePrice("abc");
    TextPriceIgnored();
    assert page.filter == Shop;
  }
}
