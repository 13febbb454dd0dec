# Product catalog filter and recommendations

A Dafny model of the `Products` page component of a small shop front-end
(`src/components/Products.jsx`). The page shows a static product list and
lets the shopper narrow it down. It offers one button for each category and
an "All" button that resets both criteria. A maximum-price box filters by
price, and text that `parseFloat` reads as NaN leaves the box with no effect. Under
the list the page recommends up to three products that share a category
with the cart and are not already in it.

The model has five modules:

- `Sequences` holds the array operations the component is built from, each
  with the properties that pin it down. `Filter` is `Array.prototype.filter`.
  It keeps exactly the elements that pass, in order, with all their
  occurrences. `Take` is `slice(0, n)`. `Dedup` is `Array.from(new Set(xs))`.
  It returns each element once, in first-occurrence order, and it is the only
  sequence with those properties.
- `PriceText` models `parseFloat` over exact rationals, with `None` for NaN.
  It skips leading white space, reads an optional sign and then `Infinity` or
  the longest decimal literal (digits, fraction, exponent), and ignores what
  follows. `AtMost` is the comparison `price <= max`.
- `Catalog` holds the `Product` record and the pure parts of the component.
  `Categories` is the category buttons and `Filtered` is the list selected
  from the full catalog for a category and a price text. `Recommendations`
  is the recommendation list.
- `ProductsView` holds the class `Products`, which has the component's three
  pieces of state: `filter`, `selectedCategory` and `maxPrice`. Its methods
  are `ApplyFilters` and the three handlers. `Valid()` says the list on
  screen is `Filtered(catalog, selectedCategory, maxPrice)`. The constructor
  establishes it and every handler re-establishes it.
- `ProductsScenario` goes through the page with three products: two tops at
  20 and 50 and shoes at 30. It follows the handlers' contracts step by step.

The price filter applies any number `parseFloat` returns, negative values
and `Infinity` included; a negative limit hides every product with a
non-negative price.

## Model

| member | source | states |
|---|---|---|
| `Sequences.Filter` | src/components/Products.jsx:27 | the result is a subsequence of the input in the original order, and an element is in it exactly when it is in the input and passes the test |
| `Sequences.FilterMultiplicity` | src/components/Products.jsx:32 | a filter keeps every occurrence of an element that passes and no occurrence of one that fails |
| `Sequences.FilterFilter` | src/components/Products.jsx:25-33 | filtering by one test and then another is the same as filtering once by both |
| `Sequences.Take` | src/components/Products.jsx:62 | `slice(0, n)` is the prefix of length min(n, length) |
| `Sequences.TakeOfFilter` | src/components/Products.jsx:57-62 | the first n elements a filter keeps are everything it keeps from some prefix of the input, and that prefix is the whole input when fewer than n are kept |
| `Sequences.Dedup` | src/components/Products.jsx:15 | `Array.from(new Set(xs))` has exactly the elements of xs, no duplicates, and follows the order of first occurrence in xs |
| `Sequences.DedupUnique` | src/components/Products.jsx:15 | any sequence with exactly the elements of xs, strictly ordered by first occurrence in xs, is the de-duplicated list |
| `PriceText.ParseFloat` | src/components/Products.jsx:30 | text of white space alone (the empty text included) is NaN; what it reads from other text is stated only for the forms of the lemmas below; "Left out" says that no lemma covers any other text, with examples |
| `PriceText.ParseNatText` | src/components/Products.jsx:30 | `parseFloat` of the decimal text of a natural number n is n |
| `PriceText.ParseNegativeNatText` | src/components/Products.jsx:30 | `parseFloat` of `-` followed by the decimal text of n is -n |
| `PriceText.ParseIgnoresRest` | src/components/Products.jsx:30 | text after an integer is ignored unless it starts with a digit, `.`, `e` or `E` (so "12abc" is 12) |
| `PriceText.ParseDecimalDigits` | src/components/Products.jsx:30 | integer digits, a point and fraction digits, leading zeros allowed in either part (as in "0.05"), are read as integer part plus fraction over its power of ten |
| `PriceText.ParseExponentText` | src/components/Products.jsx:30 | an integer followed by `e` and a natural-number exponent e is the integer scaled by ten to the power e |
| `PriceText.ParseInfinity` | src/components/Products.jsx:30 | text starting with `Infinity` is positive infinity, whatever follows |
| `PriceText.ParseFractionText` | src/components/Products.jsx:30 | `parseFloat` of `a.b` is the mantissa of integer digits a and fraction digits b |
| `PriceText.MantissaOfNatTexts` | src/components/Products.jsx:30 | that mantissa equals a + b / 10^(number of digits of b) |
| `PriceText.ParseSkipsWhiteSpace` | src/components/Products.jsx:30 | a leading white-space character does not change what `parseFloat` returns |
| `PriceText.ParseWithoutDigitsIsNaN` | src/components/Products.jsx:30-31 | text with no digit and no `I` is NaN, so the `isNaN` test turns the price filter off |
| `PriceText.AtMost` | src/components/Products.jsx:32 | the comparison `p.price <= max` as written, for the three kinds of value `parseFloat` returns (its contract lists the cases: finite, `Infinity`, `-Infinity`); `AtMostMonotone`, `PriceBounds`, `PriceAdmits` and `HigherLimitHidesNothing` state what follows from it |
| `PriceText.AtMostMonotone` | src/components/Products.jsx:32 | a price within a finite limit stays within it when the price is lowered or the limit raised |
| `Catalog.CategoryColumn` | src/components/Products.jsx:15 | `productsData.map(p => p.category)` has one entry per product, the category of the product at that position, so it holds a string exactly when some product has that category |
| `Catalog.Categories` | src/components/Products.jsx:14-17 | a string is a button exactly when some catalog product has that category; buttons are distinct and ordered by each category's first product |
| `Catalog.CategoriesDetermined` | src/components/Products.jsx:14-17 | any list of distinct catalog categories in first-occurrence order is exactly the button row |
| `Catalog.PriceLimit` | src/components/Products.jsx:29-31 | a limit is in force exactly when the box is non-empty and `parseFloat` reads a number from it, and that number is the limit; a blank box (empty or white space only) sets none |
| `Catalog.Admits` | src/components/Products.jsx:26-32 | a product is admitted exactly when it has the selected category (or none is selected) and its price is within the limit in force (or none is) |
| `Catalog.Filtered` | src/components/Products.jsx:24-36 | the shown list is a subsequence of the full catalog, in catalog order, and a product is in it exactly when it is in the catalog and passes the criteria |
| `Catalog.FilteredKeepsOccurrences` | src/components/Products.jsx:24-36 | every occurrence of a product that passes is shown, and no product that fails |
| `Catalog.NoCriteriaShowsAll` | src/components/Products.jsx:25-29 | with no category and an empty price box the whole catalog is shown |
| `Catalog.CategorySelects` | src/components/Products.jsx:26-27 | with a category selected, every shown product has that category, and every product of that category that passes the price test is shown |
| `Catalog.PriceBounds` | src/components/Products.jsx:29-33 | when the price text parses to a number max, every shown product costs at most max |
| `Catalog.PriceAdmits` | src/components/Products.jsx:26-33 | conversely, when the price text parses to max, every catalog product of the selected category (any, when none is selected) that costs at most max is shown |
| `Catalog.NaNPriceIgnored` | src/components/Products.jsx:29-33 | price text that is NaN is ignored: the result equals the category-only filter |
| `Catalog.HigherLimitHidesNothing` | src/components/Products.jsx:29-33 | raising a parsed maximum price never hides a product that the lower one showed |
| `Catalog.FilteredIdempotent` | src/components/Products.jsx:24-36 | applying the same criteria to the shown list again changes nothing |
| `Catalog.Recommendable` | src/components/Products.jsx:56-60 | the qualifying test of lines 56-60 as written (cart category set, `some` on ids); a qualifying product is never itself a cart item; `Recommendations` states its meaning on the cart |
| `Catalog.Recommendations` | src/components/Products.jsx:54-63 | empty for an empty cart; at most three; a subsequence of the catalog; each shares a category with some cart item, has an id no cart item has, and is not itself in the cart |
| `Catalog.RecommendationsAreFirstQualifying` | src/components/Products.jsx:57-62 | for a non-empty cart, the recommendations are all qualifying products of some catalog prefix, and that prefix is the whole catalog when fewer than three are recommended |
| `Catalog.RecommendationsFull` | src/components/Products.jsx:62 | when three or more products qualify, exactly three are recommended |
| `Catalog.EmptyCartNothingQualifies` | src/components/Products.jsx:55-61 | with an empty cart no product qualifies, so the early return at line 55 does not change the result |
| `ProductsView.Products.constructor` | src/components/Products.jsx:8-10 | the first state shows the whole catalog with both criteria empty, and the invariant holds |
| `ProductsView.Products.ApplyFilters` | src/components/Products.jsx:24-36 | the two-step narrowing from the full catalog leaves `filter` equal to `Filtered(catalog, category, price)` and changes nothing else |
| `ProductsView.Products.HandleCategory` | src/components/Products.jsx:38-41 | sets the category, keeps the price text, and re-establishes the invariant |
| `ProductsView.Products.HandlePrice` | src/components/Products.jsx:43-46 | sets the price text, keeps the category, and re-establishes the invariant |
| `ProductsView.Products.ResetFilters` | src/components/Products.jsx:48-52 | clears both criteria and shows the whole catalog, which is what the invariant requires |
| `ProductsScenario.ShopCategories` | src/components/Products.jsx:14-17 | the example catalog has the buttons "tops", "shoes" in that order |
| `ProductsScenario.TopsShown` | src/components/Products.jsx:26-27 | selecting "tops" shows the two tops |
| `ProductsScenario.CheapTopsShown` | src/components/Products.jsx:29-33 | "tops" with price text "25" shows only the top at 20 |
| `ProductsScenario.NoCheapShoes` | src/components/Products.jsx:29-33 | "shoes" with price text "25" shows nothing |
| `ProductsScenario.TextPriceIgnored` | src/components/Products.jsx:29-33 | price text "abc" with no category shows the whole catalog |
| `ProductsScenario.OtherTopRecommended` | src/components/Products.jsx:54-63 | with the top at 20 in the cart, the only recommendation is the other top |

## Left out

- Rendering (src/components/Products.jsx:65-171) is left out because it is presentation only. This includes the capitalised button labels at line 88.
- The Redux store and notifications (lines 2-3, 11-12, 19-22) are left out: `useDispatch`, `useSelector`, `addCart`, `addProduct` and `toast.success` are foreign calls with no logic of their own here. The cart is an input sequence of products, of which only `id` and `category` are read.
- Loading `products.json` (line 4) is left out: the catalog is the constructor's argument.
- React's asynchronous `setState` batching and `useMemo` caching are left out. State updates take effect at once. The memoised values are plain functions of the catalog and the cart.
- Floating point is left out. Prices and parsed limits are exact rationals, so the model has no rounding, no overflow of huge exponents to `Infinity` and no negative zero.
- `PriceText.ParseFloat` models the white space `parseFloat` skips as the ECMAScript white-space and line-terminator characters listed in `IsWhiteSpace`. Unicode space separators added after that list are not included.
- `PriceText.ParseFloat`: the function reads every form `parseFloat` accepts, but no lemma states its result for text outside the forms named by `ParseNatText`, `ParseNegativeNatText`, `ParseIgnoresRest`, `ParseDecimalDigits`, `ParseExponentText`, `ParseInfinity`, `ParseSkipsWhiteSpace` and `ParseWithoutDigitsIsNaN`. Examples: a `+` sign; ".5"; a signed exponent ("1e-2"); a capital `E` ("1E2"); an `e` with no digits ("1e"); integer digits with leading zeros and no point ("007"); a sign before a fraction ("-0.5"); text after a fraction, an exponent or a negative integer ("1.5abc", "1e2x", "-5x"); "-Infinity"; and NaN for text that holds a digit or an `I` but has no literal at its start ("x5", "Inf").
- `Catalog.Filtered`, `if (category)` and `if (price)`: both criteria are strings on every call path, so JavaScript truthiness is modelled as "non-empty". Other value types cannot reach these tests.
- The uniqueness of product ids is not assumed, and nothing proved depends on it.
