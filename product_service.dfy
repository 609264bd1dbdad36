/** `ProductService`: creation with a collision-free slug, the paginated list
    ordered by slug, lookup by id with the owning category, and pass-through
    update and delete. */
module Products {

  import opened Wrappers
  import opened Seqs
  import opened Paging
  import opened Slugs
  import opened SlugRetry
  import opened Database

  /** The fields a caller supplies to create a product. */
  datatype CreateProduct = CreateProduct(name: string, categoryId: Id)

  /** The fields a caller may supply to update a product; absent ones are left
      alone. */
  datatype UpdateProduct = UpdateProduct(name: Option<string>, slug: Option<string>, categoryId: Option<Id>)

  /** The list response: the page's products, the page number and size it was
      asked for, and the total row and page counts. */
  datatype ProductPage = ProductPage(data: seq<Product>, page: int, pageSize: int, totalCount: int, totalPages: int)

  /** The page and page size `findAll` uses when the caller gives none. */
  const DefaultPage := 1
  const DefaultPageSize := 5

  /** The row after the store applies an update: supplied fields replace the
      stored ones, the rest (including the id) stay. */
  function PatchedProduct(p: Product, patch: UpdateProduct): (r: Product)
    ensures r.id == p.id
    ensures r.name == (if patch.name.Some? then patch.name.value else p.name)
    ensures r.slug == (if patch.slug.Some? then patch.slug.value else p.slug)
    ensures r.categoryId == (if patch.categoryId.Some? then patch.categoryId.value else p.categoryId)
  {
    p.(name := patch.name.GetOr(p.name), slug := patch.slug.GetOr(p.slug),
       categoryId := patch.categoryId.GetOr(p.categoryId))
  }

  class ProductService {
    const db: Db

    constructor (db: Db)
      ensures this.db == db
    {
      this.db := db;
    }

    /** Whether some stored product already has this slug. */
    method IsSlugTaken(slug: string) returns (taken: bool)
      ensures taken <==> slug in ProductSlugs(db.products)
    {
      var existing := FindFirst(db.products, (p: Product) => p.slug == slug);
      taken := existing.Some?;
    }

    /** Creates a product under the first free candidate slug. `freshId` is
        the id the database assigns; `tokens` are the values successive calls
        of `generateUniqueHash` return. */
    method Create(data: CreateProduct, freshId: Id, tokens: seq<string>) returns (created: Product)
      requires db.Valid()
      requires forall i :: 0 <= i < |db.products| ==> db.products[i].id != freshId
      requires AllTokens(tokens)
      requires SomeCandidateFree(ProductSlugs(db.products), GenerateSlug(data.name), tokens)
      modifies db
      ensures db.Valid()
      ensures FirstFree(ProductSlugs(old(db.products)), GenerateSlug(data.name), tokens, created.slug)
      ensures created == Product(freshId, data.name, created.slug, data.categoryId)
      ensures db.products == old(db.products) + [created]
      ensures db.categories == old(db.categories)
      ensures ProductSlugsUnique(old(db.products)) ==> ProductSlugsUnique(db.products)
    {
      ghost var used := ProductSlugs(db.products);
      ghost var base := GenerateSlug(data.name);
      var slug := GenerateSlug(data.name);
      var drawn := 0;
      var taken := IsSlugTaken(slug);
      while taken
        modifies {}
        invariant 0 <= drawn <= |tokens|
        invariant slug == Candidate(base, tokens, drawn)
        invariant taken <==> slug in used
        invariant forall j :: 0 <= j < drawn ==> Candidate(base, tokens, j) in used
        decreases |tokens| - drawn
      {
        RetryStep(used, base, tokens, drawn);
        var uniqueHash := tokens[drawn];
        slug := GenerateSlug(data.name) + "-" + uniqueHash;
        drawn := drawn + 1;
        taken := IsSlugTaken(slug);
      }
      RetryExit(used, base, tokens, drawn);
      created := Product(freshId, data.name, slug, data.categoryId);
      AppendProductKeepsKeys(db.products, created);
      db.products := db.products + [created];
    }

    /** One page of products by slug ascending, with the page and page size
        echoed back, the full row count and the number of pages. */
    method FindAll(page: Option<int>, pageSize: Option<int>) returns (r: ProductPage)
      requires TotalPreorder(db.collation)
      requires page.GetOr(DefaultPage) >= 1 && pageSize.GetOr(DefaultPageSize) >= 1
      ensures r.page == page.GetOr(DefaultPage) && r.pageSize == pageSize.GetOr(DefaultPageSize)
      ensures r.totalCount == |db.products|
      ensures r.totalPages == PageCount(|db.products|, r.pageSize)
      ensures |r.data| <= r.pageSize
      ensures r.data == [] <==> r.page > r.totalPages
      ensures forall i, j :: 0 <= i < j < |r.data| ==> db.collation(r.data[i].slug, r.data[j].slug)
      ensures r.data == Window(SortBy(db.products, ByProductSlug(db.collation)), Skip(r.page, r.pageSize), r.pageSize)
      ensures multiset(r.data) <= multiset(db.products)
    {
      var p := page.GetOr(DefaultPage);
      var size := pageSize.GetOr(DefaultPageSize);
      var skip := Skip(p, size);
      var totalCount := |db.products|;
      var sorted := SortBy(db.products, ByProductSlug(db.collation));
      var data := Window(sorted, skip, size);
      r := ProductPage(data, p, size, totalCount, PageCount(totalCount, size));

      assert forall i, j :: 0 <= i < j < |data| ==> db.collation(data[i].slug, data[j].slug) by {
        OrderingsArePreorders(db.collation);
        SortBySorted(db.products, ByProductSlug(db.collation));
        WindowOrdered(ByProductSlug(db.collation), sorted, skip, size);
        forall i, j | 0 <= i < j < |data| ensures db.collation(data[i].slug, data[j].slug) {
          assert ByProductSlug(db.collation)(data[i], data[j]);
        }
      }
      assert data == [] <==> p > PageCount(totalCount, size) by {
        PageHasRowsIff(sorted, size, p);
      }
      assert multiset(data) <= multiset(db.products) by {
        WindowSubMultiset(sorted, skip, size);
      }
    }

    /** The product with this id and the category its `categoryId` names, or
        nothing. */
    method FindOne(id: Id) returns (r: Option<ProductWithCategory>)
      ensures r.None? <==> forall i :: 0 <= i < |db.products| ==> db.products[i].id != id
      ensures r.Some? ==> r.value.product.id == id && r.value.product in db.products
      ensures r.Some? ==> (r.value.category.None? <==>
        forall i :: 0 <= i < |db.categories| ==> db.categories[i].id != r.value.product.categoryId)
      ensures r.Some? && r.value.category.Some? ==>
        r.value.category.value in db.categories && r.value.category.value.id == r.value.product.categoryId
    {
      var found := FindFirst(db.products, (p: Product) => p.id == id);
      if found.None? {
        r := None;
      } else {
        var product := db.products[found.value];
        var owner := FindFirst(db.categories, (c: Category) => c.id == product.categoryId);
        var category := if owner.Some? then Some(db.categories[owner.value]) else None;
        r := Some(ProductWithCategory(product, category));
      }
    }

    /** Applies the supplied fields to the product with this id. */
    method Update(id: Id, patch: UpdateProduct) returns (r: Result<Product, StoreError>)
      requires db.Valid()
      modifies db
      ensures db.Valid()
      ensures db.categories == old(db.categories)
      ensures r.Err? <==> forall i :: 0 <= i < |old(db.products)| ==> old(db.products)[i].id != id
      ensures r.Err? ==> r.error == NotFound
      ensures |db.products| == |old(db.products)|
      ensures forall i :: 0 <= i < |db.products| ==>
        db.products[i] == if old(db.products)[i].id == id then PatchedProduct(old(db.products)[i], patch)
                          else old(db.products)[i]
      ensures r.Ok? ==> exists i :: (0 <= i < |old(db.products)| && old(db.products)[i].id == id
        && r.value == db.products[i] && r.value.id == id)
    {
      var found := FindFirst(db.products, (p: Product) => p.id == id);
      if found.None? {
        r := Err(NotFound);
      } else {
        var i := found.value;
        var updated := PatchedProduct(db.products[i], patch);
        db.products := db.products[i := updated];
        r := Ok(updated);
      }
    }

    /** Deletes the product with this id and returns it. */
    method Remove(id: Id) returns (r: Result<Product, StoreError>)
      requires db.Valid()
      modifies db
      ensures db.Valid()
      ensures db.categories == old(db.categories)
      ensures r.Err? <==> forall i :: 0 <= i < |old(db.products)| ==> old(db.products)[i].id != id
      ensures r.Err? ==> r.error == NotFound && db.products == old(db.products)
      ensures r.Ok? ==> exists i :: (0 <= i < |old(db.products)| && old(db.products)[i] == r.value
        && r.value.id == id && db.products == Without(old(db.products), i))
      ensures r.Ok? ==> forall i :: 0 <= i < |db.products| ==> db.products[i].id != id
      ensures ProductSlugsUnique(old(db.products)) ==> ProductSlugsUnique(db.products)
    {
      var found := FindFirst(db.products, (p: Product) => p.id == id);
      if found.None? {
        r := Err(NotFound);
      } else {
        var i := found.value;
        r := Ok(db.products[i]);
        RemoveProductKeepsKeys(db.products, i);
        db.products := Without(db.products, i);
      }
    }
  }
}
