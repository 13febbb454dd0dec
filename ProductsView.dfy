/**
  The state of the `Products` component: the list on screen and the two
  filter criteria, with the handlers the category buttons, the "All" button
  and the maximum-price box call. State updates take effect at once.
 */
module ProductsView {
  import opened Sequences
  import opened PriceText
  import opened Catalog

  class Products {
    /** The static product list. */
    const catalog: seq<Product>
    /** The products on screen. */
    var filter: seq<Product>
    /** The category button last pressed; "" for all. */
    var selectedCategory: string
    /** The text of the maximum-price box. */
    var maxPrice: string

    /** The list on screen is the catalog filtered by the current criteria. */
    ghost predicate Valid()
      reads this
    {
      filter == Filtered(catalog, selectedCategory, maxPrice)
    }

    /** First render: the whole catalog, no criteria. */
    constructor (productsData: seq<Product>)
      ensures catalog == productsData
      ensures filter == productsData && selectedCategory == "" && maxPrice == ""
      ensures Valid()
    {
      catalog := productsData;
      filter := productsData;
      selectedCategory := "";
      maxPrice := "";
      new;
      NoCriteriaShowsAll(catalog);
    }

    /** `applyFilters(category, price)`: recompute the list from the full catalog. */
    method ApplyFilters(category: string, price: string)
      modifies this`filter
      ensures filter == Filtered(catalog, category, price)
    {
      var inCategory := (p: Product) => p.category == category;
      var updated := catalog;
      if category != "" {
        updated := Filter(updated, inCategory);
      }
      if price != "" {
        var max := ParseFloat(price);
        if max.Some? {
          var underMax := (p: Product) => AtMost(p.price, max.value);
          updated := Filter(updated, underMax);
          if category != "" {
            FilterFilter(catalog, inCategory, underMax, Admissible(category, price));
          } else {
            FilterCongruent(catalog, underMax, Admissible(category, price));
          }
        }
      }
      if PriceLimit(price).None? {
        if category != "" {
          FilterCongruent(catalog, inCategory, Admissible(category, price));
        } else {
          FilterKeepsAll(catalog, Admissible(category, price));
        }
      }
      filter := updated;
    }

    /** A category button: select it, keep the price text, refilter. */
    method HandleCategory(cat: string)
      modifies this
      ensures selectedCategory == cat && maxPrice == old(maxPrice)
      ensures filter == Filtered(catalog, cat, maxPrice)
      ensures Valid()
    {
      selectedCategory := cat;
      ApplyFilters(cat, maxPrice);
    }

    /** The maximum-price box changed: keep the category, refilter. */
    method HandlePrice(price: string)
      modifies this
      ensures maxPrice == price && selectedCategory == old(selectedCategory)
      ensures filter == Filtered(catalog, selectedCategory, price)
      ensures Valid()
    {
      maxPrice := price;
      ApplyFilters(selectedCategory, price);
    }

    /** The "All" button: clear both criteria and show the whole catalog. */
    method ResetFilters()
      modifies this
      ensures selectedCategory == "" && maxPrice == "" && filter == catalog
      ensures Valid()
    {
      selectedCategory := "";
      maxPrice := "";
      filter := catalog;
      NoCriteriaShowsAll(catalog);
    }
  }
}
