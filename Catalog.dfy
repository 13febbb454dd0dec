/**
  The catalog-side logic of the product page: the category buttons, the
  filter criteria and the cart-based recommendations, as functions of the
  catalog (and the cart) with the properties the page relies on.
 */
module Catalog {
  import opened Wrappers
  import opened Sequences
  import opened PriceText

  /** One record of the static product list. */
  datatype Product = Product(id: int, name: string, description: string, category: string, price: real, rating: real)

  /** The category of each product, in catalog order (`productsData.map(p => p.category)`). */
  function CategoryColumn(catalog: seq<Product>): (column: seq<string>)
    ensures |column| == |catalog| && forall i :: 0 <= i < |catalog| ==> column[i] == catalog[i].category
    ensures forall c :: c in column <==> exists p :: p in catalog && p.category == c
  {
    var column := seq(|catalog|, i requires 0 <= i < |catalog| => catalog[i].category);
    assert forall p :: p in catalog ==> p.category in column by {
      forall p | p in catalog ensures p.category in column {
        var i :| 0 <= i < |catalog| && catalog[i] == p;
        assert column[i] == p.category;
      }
    }
    column
  }

  /**
    The category buttons: every category of the catalog exactly once, ordered
    by the position of the first product of that category.
   */
  function Categories(catalog: seq<Product>): (cs: seq<string>)
    ensures forall c :: c in cs <==> c in CategoryColumn(catalog)
    ensures forall c :: c in cs <==> exists p :: p in catalog && p.category == c
    ensures NoDuplicates(cs)
    ensures forall i, j :: 0 <= i < j < |cs| ==>
              FirstIndex(CategoryColumn(catalog), cs[i]) < FirstIndex(CategoryColumn(catalog), cs[j])
  {
    Dedup(CategoryColumn(catalog))
  }

  /** Any row of distinct catalog categories in first-occurrence order is the one shown. */
  lemma CategoriesDetermined(catalog: seq<Product>, cs: seq<string>)
    requires forall c :: c in cs <==> exists p :: p in catalog && p.category == c
    requires forall i, j :: 0 <= i < j < |cs| ==>
               && cs[i] in CategoryColumn(catalog) && cs[j] in CategoryColumn(catalog)
               && FirstIndex(CategoryColumn(catalog), cs[i]) < FirstIndex(CategoryColumn(catalog), cs[j])
    ensures cs == Categories(catalog)
  {
    DedupUnique(CategoryColumn(catalog), cs);
  }

  /** The price limit in force: none for an empty box or for text that is NaN. */
  function PriceLimit(price: string): (limit: Option<Number>)
    ensures (forall i :: 0 <= i < |price| ==> IsWhiteSpace(price[i])) ==> limit == None
    ensures limit.Some? <==> price != "" && ParseFloat(price).Some?
    ensures limit.Some? ==> limit == ParseFloat(price)
  {
    if price == "" then None else ParseFloat(price)
  }

  /** Whether a product passes the category and maximum-price criteria (an empty category selects all). */
  predicate Admits(category: string, price: string, p: Product): (b: bool)
    ensures b ==> category == "" || p.category == category
    ensures b && PriceLimit(price).Some? ==> AtMost(p.price, PriceLimit(price).value)
    ensures ((category == "" || p.category == category)
             && (PriceLimit(price).None? || AtMost(p.price, PriceLimit(price).value))) ==> b
  {
    && (category == "" || p.category == category)
    && match PriceLimit(price)
       case None => true
       case Some(max) => AtMost(p.price, max)
  }

  /** The criteria as a test, for Filter. */
  function Admissible(category: string, price: string): Product -> bool {
    p => Admits(category, price, p)
  }

  /** The list the page shows for the given criteria, always selected from the full catalog. */
  function Filtered(catalog: seq<Product>, category: string, price: string): (r: seq<Product>)
    ensures IsSubsequence(r, catalog)
    ensures forall p :: p in r <==> p in catalog && Admits(category, price, p)
  {
    Filter(catalog, Admissible(category, price))
  }

  /** Every occurrence of an admitted product is shown, and none of the others. */
  lemma FilteredKeepsOccurrences(catalog: seq<Product>, category: string, price: string, p: Product)
    ensures multiset(Filtered(catalog, category, price))[p] == if Admits(category, price, p) then multiset(catalog)[p] else 0
  {
    FilterMultiplicity(catalog, Admissible(category, price), p);
  }

  /** No category and no price: the whole catalog. */
  lemma NoCriteriaShowsAll(catalog: seq<Product>)
    ensures Filtered(catalog, "", "") == catalog
  {
    FilterKeepsAll(catalog, Admissible("", ""));
  }

  /** A selected category shows exactly the products of that category that pass the price test. */
  lemma CategorySelects(catalog: seq<Product>, category: string, price: string)
    requires category != ""
    ensures forall p :: p in Filtered(catalog, category, price) ==> p.category == category
    ensures forall p :: p in catalog && p.category == category && Admits("", price, p) ==>
              p in Filtered(catalog, category, price)
  {
  }

  /** A price that parses bounds every shown product. */
  lemma PriceBounds(catalog: seq<Product>, category: string, price: string, max: real)
    requires price != "" && ParseFloat(price) == Some(Finite(max))
    ensures forall p :: p in Filtered(catalog, category, price) ==> p.price <= max
  {
  }

  /** Conversely, every product of the selected category (or any, for none) within a parsed maximum is shown. */
  lemma PriceAdmits(catalog: seq<Product>, category: string, price: string, max: real)
    requires price != "" && ParseFloat(price) == Some(Finite(max))
    ensures forall p :: p in catalog && (category == "" || p.category == category) && p.price <= max ==>
              p in Filtered(catalog, category, price)
  {
  }

  /** A price that does not parse is ignored: the result is the category-only filter. */
  lemma NaNPriceIgnored(catalog: seq<Product>, category: string, price: string)
    requires ParseFloat(price) == None
    ensures Filtered(catalog, category, price) == Filtered(catalog, category, "")
  {
    FilterCongruent(catalog, Admissible(category, price), Admissible(category, ""));
  }

  /** Raising the maximum price never hides a product that was shown. */
  lemma HigherLimitHidesNothing(catalog: seq<Product>, category: string, low: string, high: string, x: real, y: real)
    requires low != "" && ParseFloat(low) == Some(Finite(x))
    requires high != "" && ParseFloat(high) == Some(Finite(y))
    requires x <= y
    ensures forall p :: p in Filtered(catalog, category, low) ==> p in Filtered(catalog, category, high)
  {
  }

  /** Filtering the shown list again with the same criteria changes nothing. */
  lemma FilteredIdempotent(catalog: seq<Product>, category: string, price: string)
    ensures Filtered(Filtered(catalog, category, price), category, price) == Filtered(catalog, category, price)
  {
    var r := Filtered(catalog, category, price);
    FilterKeepsAll(r, Admissible(category, price));
  }

  /**
    The recommendation test: the product's category is among the cart's
    categories (`new Set(cartItems.map(item => item.category))`) and no cart
    item has its id (`cartItems.some(item => item.id === p.id)`).
   */
  predicate Recommendable(cart: seq<Product>, p: Product): (b: bool)
    ensures b ==> p !in cart
  {
    && p.category in (set item | item in cart :: item.category)
    && !(exists item :: item in cart && item.id == p.id)
  }

  function RecommendableTest(cart: seq<Product>): Product -> bool {
    p => Recommendable(cart, p)
  }

  /** At most this many recommendations are shown. */
  const MaxRecommendations: nat := 3

  /**
    The "Recommended for you" list: nothing for an empty cart, otherwise the
    first three catalog products that share a category with the cart and are
    not in it.
   */
  function Recommendations(catalog: seq<Product>, cart: seq<Product>): (r: seq<Product>)
    ensures cart == [] ==> r == []
    ensures |r| <= MaxRecommendations
    ensures IsSubsequence(r, catalog)
    ensures forall p :: p in r ==>
              && (exists item :: item in cart && item.category == p.category)
              && (forall item :: item in cart ==> item.id != p.id)
    ensures forall p :: p in r ==> p !in cart
  {
    if |cart| == 0 then []
    else
      var recs := Filter(catalog, RecommendableTest(cart));
      var r := Take(recs, MaxRecommendations);
      PrefixOfSubsequence(recs, catalog, |r|);
      assert forall p :: p in r ==> p in recs;
      assert forall p :: p in recs ==> Recommendable(cart, p);
      r
  }

  /**
    The recommendations are exactly what qualifies in some prefix of the
    catalog; fewer than three only when the whole catalog has been looked at.
   */
  lemma RecommendationsAreFirstQualifying(catalog: seq<Product>, cart: seq<Product>)
    requires cart != []
    ensures exists j :: 0 <= j <= |catalog|
              && Recommendations(catalog, cart) == Filter(catalog[..j], RecommendableTest(cart))
              && (|Recommendations(catalog, cart)| < MaxRecommendations ==> j == |catalog|)
  {
    var j := TakeOfFilter(catalog, RecommendableTest(cart), MaxRecommendations);
    assert Recommendations(catalog, cart) == Filter(catalog[..j], RecommendableTest(cart));
  }

  /** With three or more qualifying products, exactly three are recommended. */
  lemma RecommendationsFull(catalog: seq<Product>, cart: seq<Product>)
    requires cart != []
    requires |Filter(catalog, RecommendableTest(cart))| >= MaxRecommendations
    ensures |Recommendations(catalog, cart)| == MaxRecommendations
  {
  }

  /** The empty-cart guard only short-cuts: with no cart items nothing qualifies anyway. */
  lemma EmptyCartNothingQualifies(catalog: seq<Product>)
    ensures Filter(catalog, RecommendableTest([])) == []
  {
  }
}
