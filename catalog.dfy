/**
 * The product catalog and the two queries the page runs over it: the
 * category filter of the product grid and the resolution of the selected
 * ids into products for the sidebar and the routine request.
 */
module Catalog {
  import opened Seqs

  /** One catalog entry; the catalog itself is read-only to the page. */
  datatype Product = Product(
    id: int,
    category: string,
    name: string,
    brand: string,
    image: string,
    description: string)

  /** The products shown in the grid for one value of the category selector. */
  function ByCategory(catalog: seq<Product>, category: string): (r: seq<Product>)
    ensures forall p :: p in r <==> p in catalog && p.category == category
    ensures forall q :: multiset(r)[q] == if q.category == category then multiset(catalog)[q] else 0
    ensures IsSubsequence(r, catalog)
  {
    var keep := (p: Product) => p.category == category;
    FilterIsSubsequence(catalog, keep);
    assert forall q :: multiset(Filter(catalog, keep))[q] == if keep(q) then multiset(catalog)[q] else 0 by {
      forall q { FilterCount(catalog, keep, q); }
    }
    Filter(catalog, keep)
  }

  /**
   * The selected products: the catalog entries whose id is selected, in
   * catalog order. A selected id that no product carries yields nothing.
   */
  function SelectedProducts(catalog: seq<Product>, ids: seq<int>): (r: seq<Product>)
    ensures forall p :: p in r <==> p in catalog && p.id in ids
    ensures forall q :: multiset(r)[q] == if q.id in ids then multiset(catalog)[q] else 0
    ensures IsSubsequence(r, catalog)
  {
    var keep := (p: Product) => p.id in ids;
    FilterIsSubsequence(catalog, keep);
    assert forall q :: multiset(Filter(catalog, keep))[q] == if keep(q) then multiset(catalog)[q] else 0 by {
      forall q { FilterCount(catalog, keep, q); }
    }
    Filter(catalog, keep)
  }

  /**
   * The resolved list depends only on which catalog ids are selected: neither
   * the order of the selection nor ids unknown to the catalog change it.
   */
  lemma SelectedDependsOnCatalogIdsOnly(catalog: seq<Product>, a: seq<int>, b: seq<int>)
    requires forall p :: p in catalog ==> (p.id in a <==> p.id in b)
    ensures SelectedProducts(catalog, a) == SelectedProducts(catalog, b)
  {
    FilterCongruent(catalog, (p: Product) => p.id in a, (p: Product) => p.id in b);
  }

  /** Selecting an id that no catalog product carries does not change the selected products. */
  lemma UnknownIdDropped(catalog: seq<Product>, ids: seq<int>, unknown: int)
    requires forall p :: p in catalog ==> p.id != unknown
    ensures SelectedProducts(catalog, ids + [unknown]) == SelectedProducts(catalog, ids)
  {
    SelectedDependsOnCatalogIdsOnly(catalog, ids + [unknown], ids);
  }

  /** The resolved list is empty exactly when no catalog product is selected. */
  lemma SelectedEmptyIff(catalog: seq<Product>, ids: seq<int>)
    ensures SelectedProducts(catalog, ids) == [] <==> forall p :: p in catalog ==> p.id !in ids
  {
  }

  /**
   * The category filter and the selection are independent: a selected product
   * outside the current category is hidden from the grid but still listed as
   * selected.
   */
  lemma SelectedOutsideFilterStillListed(catalog: seq<Product>, ids: seq<int>, category: string, p: Product)
    requires p in catalog && p.id in ids && p.category != category
    ensures p !in ByCategory(catalog, category)
    ensures p in SelectedProducts(catalog, ids)
  {
  }

  /** A selection listed in reverse catalog order still resolves in catalog order. */
  lemma SelectedInCatalogOrderExample()
    ensures
      var p1 := Product(1, "cleanser", "Foam", "Brand A", "foam.png", "Gentle foam");
      var p2 := Product(2, "serum", "Drops", "Brand B", "drops.png", "Daily serum");
      SelectedProducts([p1, p2], [2, 1]) == [p1, p2]
  {
  }
}
