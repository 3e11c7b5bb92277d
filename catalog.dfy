/** The read-only catalog queries of `ProductView.get` and
    `HomeScreenView.get`: pure filters over the product table at a given
    time `now` (seconds). */
module Catalog {
  import opened Common
  import opened Models

  /** `timedelta(hours=24)`, in seconds. */
  const Day := 24 * 60 * 60

  /** The query parameters of a product search. An absent or empty parameter
      is `None` or the empty string: the view tests each for truthiness. */
  datatype ProductQuery = ProductQuery(categoryId: Option<nat>, search: string, id: Option<nat>)

  predicate Unexpired(p: Product, now: int)
  {
    p.expireTime >= now
  }

  /** The text search: the product's name or its shop's name contains the
      text, ignoring case. */
  predicate MatchesText(p: Product, text: string)
  {
    ContainsIgnoringCase(p.name, text) || ContainsIgnoringCase(p.shop.name, text)
  }

  predicate ProductIdsUnique(products: seq<Product>)
  {
    forall i, j :: 0 <= i < |products| && 0 <= j < |products| && products[i].id == products[j].id ==> i == j
  }

  /** `get_object_or_404(Product, id=id)`: the product row with that key. */
  function ProductIndex(products: seq<Product>, id: ProductId): Option<nat>
  {
    FindFirst(products, (p: Product) => p.id == id)
  }

  /** The primary keys of the catalog. */
  function ProductIds(products: seq<Product>): set<ProductId>
  {
    set i | 0 <= i < |products| :: products[i].id
  }

  /** `get_object_or_404(Product, id=id)` finds a row exactly for the keys
      of the catalog. */
  lemma ProductIndexFindsKeys(products: seq<Product>, id: ProductId)
    ensures ProductIndex(products, id).Some? <==> id in ProductIds(products)
  {
    if id in ProductIds(products) {
      var i :| 0 <= i < |products| && products[i].id == id;
      assert ((p: Product) => p.id == id)(products[i]);
    }
  }

  /** The products with a given primary key. */
  function ProductsWithId(products: seq<Product>, id: ProductId): seq<Product>
  {
    Filter(products, (p: Product) => p.id == id)
  }

  /** Exactly one filter is applied, chosen by precedence: category id, then
      search text, then product id; with none of them the result is empty.
      The category and text searches skip expired products, the id lookup
      does not. */
  function SearchProducts(products: seq<Product>, q: ProductQuery, now: int): (r: seq<Product>)
    ensures q.categoryId.Some? ==>
      forall p :: p in r <==> p in products && Unexpired(p, now) && p.category == q.categoryId.value
    ensures q.categoryId.None? && q.search != "" ==>
      forall p :: p in r <==> p in products && Unexpired(p, now) && MatchesText(p, q.search)
    ensures q.categoryId.None? && q.search == "" && q.id.Some? ==>
      forall p :: p in r <==> p in products && p.id == q.id.value
    ensures q.categoryId.None? && q.search == "" && q.id.None? ==> r == []
  {
    if q.categoryId.Some? then
      Filter(products, (p: Product) => Unexpired(p, now) && p.category == q.categoryId.value)
    else if q.search != "" then
      Filter(products, (p: Product) => Unexpired(p, now) && MatchesText(p, q.search))
    else if q.id.Some? then
      ProductsWithId(products, q.id.value)
    else
      []
  }

  /** A category id makes the search text and the product id irrelevant. */
  lemma CategoryIdTakesPrecedence(products: seq<Product>, q: ProductQuery, now: int)
    requires q.categoryId.Some?
    ensures SearchProducts(products, q, now) == SearchProducts(products, ProductQuery(q.categoryId, "", None), now)
  {
  }

  /** Without a category id, search text makes the product id irrelevant. */
  lemma SearchTextTakesPrecedence(products: seq<Product>, q: ProductQuery, now: int)
    requires q.categoryId.None? && q.search != ""
    ensures SearchProducts(products, q, now) == SearchProducts(products, ProductQuery(None, q.search, None), now)
  {
  }

  /** Only the lookup by id can return an expired product. */
  lemma OnlyIdLookupShowsExpired(products: seq<Product>, q: ProductQuery, now: int, p: Product)
    requires p in SearchProducts(products, q, now) && !Unexpired(p, now)
    ensures q.categoryId.None? && q.search == "" && q.id == Some(p.id)
  {
  }

  /** Product ids are primary keys, so a lookup by id finds at most one. */
  lemma {:induction false} IdLookupFindsAtMostOne(products: seq<Product>, id: ProductId)
    requires ProductIdsUnique(products)
    ensures |ProductsWithId(products, id)| <= 1
  {
    if products != [] {
      var init := products[..|products| - 1];
      assert ProductIdsUnique(init);
      IdLookupFindsAtMostOne(init, id);
      if products[|products| - 1].id == id {
        forall k | 0 <= k < |init| ensures init[k].id != id {
          assert init[k] == products[k];
        }
        FilterKeepingNothing(init, (p: Product) => p.id == id);
      }
    }
  }

  /** `HomeScreenView`: the products expiring between now and a day from now,
      both ends included. */
  function RunningOut(products: seq<Product>, now: int): (r: seq<Product>)
    ensures forall p :: p in r <==> p in products && now <= p.expireTime <= now + Day
  {
    Filter(products, (p: Product) => now <= p.expireTime <= now + Day)
  }

  /** Everything on the home screen is also found by a category search made
      at the same moment. */
  lemma RunningOutIsSearchable(products: seq<Product>, now: int, p: Product)
    requires p in RunningOut(products, now)
    ensures p in SearchProducts(products, ProductQuery(Some(p.category), "", None), now)
  {
  }
}
