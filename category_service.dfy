/** `CategoryService`: creation with a collision-free slug, the paginated
    list, lookups by id and by slug, and pass-through update and delete. */
module Categories {

  import opened Wrappers
  import opened Seqs
  import opened Paging
  import opened Slugs
  import opened SlugRetry
  import opened Database

  /** The fields a caller supplies to create a category. */
  datatype CreateCategory = CreateCategory(name: string)

  /** The fields a caller may supply to update a category; absent ones are
      left alone. */
  datatype UpdateCategory = UpdateCategory(name: Option<string>, slug: Option<string>)

  /** The list response: the page's categories with their products, the page
      number, and the total row and page counts. */
  datatype CategoryPage = CategoryPage(data: seq<CategoryWithProducts>, page: int, totalCount: int, totalPages: int)

  /** The row after the store applies an update: supplied fields replace the
      stored ones, the rest (including the id) stay. */
  function Patched(c: Category, patch: UpdateCategory): (r: Category)
    ensures r.id == c.id
    ensures r.name == (if patch.name.Some? then patch.name.value else c.name)
    ensures r.slug == (if patch.slug.Some? then patch.slug.value else c.slug)
  {
    c.(name := patch.name.GetOr(c.name), slug := patch.slug.GetOr(c.slug))
  }

  /** JavaScript truthiness of an optional number: present and not zero. */
  predicate Truthy(n: Option<int>) {
    n.Some? && n.value != 0
  }

  class CategoryService {
    const db: Db

    constructor (db: Db)
      ensures this.db == db
    {
      this.db := db;
    }

    /** Whether some stored category already has this slug. */
    method IsSlugTaken(slug: string) returns (taken: bool)
      ensures taken <==> slug in CategorySlugs(db.categories)
    {
      var existing := FindFirst(db.categories, (c: Category) => c.slug == slug);
      taken := existing.Some?;
    }

    /** Creates a category under the first free candidate slug. `freshId` is
        the id the database assigns; `tokens` are the values successive calls
        of `generateUniqueHash` return. */
    method Create(data: CreateCategory, freshId: Id, tokens: seq<string>) returns (created: Category)
      requires db.Valid()
      requires forall i :: 0 <= i < |db.categories| ==> db.categories[i].id != freshId
      requires AllTokens(tokens)
      requires SomeCandidateFree(CategorySlugs(db.categories), GenerateSlug(data.name), tokens)
      modifies db
      ensures db.Valid()
      ensures FirstFree(CategorySlugs(old(db.categories)), GenerateSlug(data.name), tokens, created.slug)
      ensures created == Category(freshId, data.name, created.slug)
      ensures db.categories == old(db.categories) + [created]
      ensures db.products == old(db.products)
      ensures CategorySlugsUnique(old(db.categories)) ==> CategorySlugsUnique(db.categories)
    {
      ghost var used := CategorySlugs(db.categories);
      ghost var base := GenerateSlug(data.name);
      var slug := GenerateSlug(data.name);
      var drawn := 0;
      var taken := IsSlugTaken(slug);
      while taken
        modifies {}
        invariant 0 <= drawn <= |tokens|
        invariant slug == Candidate(base, tokens, drawn)
        invariant taken <==> slug in used
        invariant forall j :: 0 <= j < drawn ==> Candidate(base, tokens, j) in used
        decreases |tokens| - drawn
      {
        RetryStep(used, base, tokens, drawn);
        var uniqueHash := tokens[drawn];
        slug := GenerateSlug(data.name) + "-" + uniqueHash;
        drawn := drawn + 1;
        taken := IsSlugTaken(slug);
      }
      RetryExit(used, base, tokens, drawn);
      created := Category(freshId, data.name, slug);
      AppendCategoryKeepsKeys(db.categories, created);
      db.categories := db.categories + [created];
    }

    /** One page of categories, by name descending, each with its products.
        A truthy `totalPages` is trusted: the total count is derived from it
        and it is echoed back; otherwise both come from the table. */
    method FindAll(page: Option<int>, itemsPerPage: int, totalPages: Option<int>) returns (r: CategoryPage)
      requires TotalPreorder(db.collation)
      requires page.GetOr(1) >= 1 && itemsPerPage >= 1
      ensures r.page == page.GetOr(1)
      ensures Truthy(totalPages) ==> r.totalCount == totalPages.value * itemsPerPage && r.totalPages == totalPages.value
      ensures !Truthy(totalPages) ==>
        r.totalCount == |db.categories| && r.totalPages == PageCount(|db.categories|, itemsPerPage)
      ensures |r.data| <= itemsPerPage
      ensures r.data == [] <==> page.GetOr(1) > PageCount(|db.categories|, itemsPerPage)
      ensures forall i, j :: 0 <= i < j < |r.data| ==>
        db.collation(r.data[j].category.name, r.data[i].category.name)
      ensures r.data == IncludeProducts(
        Window(SortBy(db.categories, ByCategoryNameDesc(db.collation)), Skip(page.GetOr(1), itemsPerPage), itemsPerPage),
        db.products)
    {
      var p := page.GetOr(1);
      var skip := Skip(p, itemsPerPage);
      var totalCount: int;
      var pages: int;
      if Truthy(totalPages) {
        totalCount := totalPages.value * itemsPerPage;
        pages := totalPages.value;
      } else {
        totalCount := |db.categories|;
        pages := PageCount(|db.categories|, itemsPerPage);
      }
      var sorted := SortBy(db.categories, ByCategoryNameDesc(db.collation));
      var window := Window(sorted, skip, itemsPerPage);
      var data := IncludeProducts(window, db.products);
      r := CategoryPage(data, p, totalCount, pages);

      assert forall i, j :: 0 <= i < j < |data| ==> db.collation(data[j].category.name, data[i].category.name) by {
        OrderingsArePreorders(db.collation);
        SortBySorted(db.categories, ByCategoryNameDesc(db.collation));
        WindowOrdered(ByCategoryNameDesc(db.collation), sorted, skip, itemsPerPage);
        forall i, j | 0 <= i < j < |data|
          ensures db.collation(data[j].category.name, data[i].category.name)
        {
          assert ByCategoryNameDesc(db.collation)(window[i], window[j]);
        }
      }
      assert data == [] <==> p > PageCount(|db.categories|, itemsPerPage) by {
        PageHasRowsIff(sorted, itemsPerPage, p);
      }
    }

    /** The category with this id and its products sorted by name with the
        locale comparison `localeLe`, or nothing. */
    method FindById(id: Id, localeLe: (string, string) -> bool) returns (r: Option<CategoryWithProducts>)
      requires TotalPreorder(localeLe)
      ensures r.None? <==> forall i :: 0 <= i < |db.categories| ==> db.categories[i].id != id
      ensures r.Some? ==> r.value.category.id == id && r.value.category in db.categories
      ensures r.Some? ==> forall i, j :: 0 <= i < j < |r.value.products| ==>
        localeLe(r.value.products[i].name, r.value.products[j].name)
      ensures r.Some? ==> multiset(r.value.products) == multiset(ProductsOf(db.products, id))
    {
      var found := FindFirst(db.categories, (c: Category) => c.id == id);
      if found.None? {
        r := None;
      } else {
        var category := db.categories[found.value];
        var products := ProductsOf(db.products, category.id);
        products := SortBy(products, ByProductName(localeLe));
        OrderingsArePreorders(localeLe);
        SortBySorted(ProductsOf(db.products, category.id), ByProductName(localeLe));
        forall i, j | 0 <= i < j < |products| ensures localeLe(products[i].name, products[j].name) {
          assert ByProductName(localeLe)(products[i], products[j]);
        }
        r := Some(CategoryWithProducts(category, products));
      }
    }

    /** The first stored category with this slug and its products, or nothing. */
    method GetBySlug(slug: string) returns (r: Option<CategoryWithProducts>)
      ensures r.None? <==> slug !in CategorySlugs(db.categories)
      ensures r.Some? ==> r.value.category.slug == slug
      ensures r.Some? ==> exists i :: (0 <= i < |db.categories| && db.categories[i] == r.value.category
        && forall j :: 0 <= j < i ==> db.categories[j].slug != slug)
      ensures r.Some? ==> r.value.products == ProductsOf(db.products, r.value.category.id)
    {
      var found := FindFirst(db.categories, (c: Category) => c.slug == slug);
      if found.None? {
        r := None;
      } else {
        r := Some(WithProducts(db.categories[found.value], db.products));
      }
    }

    /** Applies the supplied fields to the category with this id; the slug
        changes only when the caller supplies one. */
    method Update(id: Id, patch: UpdateCategory) returns (r: Result<Category, StoreError>)
      requires db.Valid()
      modifies db
      ensures db.Valid()
      ensures db.products == old(db.products)
      ensures r.Err? <==> forall i :: 0 <= i < |old(db.categories)| ==> old(db.categories)[i].id != id
      ensures r.Err? ==> r.error == NotFound
      ensures |db.categories| == |old(db.categories)|
      ensures forall i :: 0 <= i < |db.categories| ==>
        db.categories[i] == if old(db.categories)[i].id == id then Patched(old(db.categories)[i], patch)
                            else old(db.categories)[i]
      ensures r.Ok? ==> exists i :: (0 <= i < |old(db.categories)| && old(db.categories)[i].id == id
        && r.value == db.categories[i] && r.value.id == id
        && r.value.slug == (if patch.slug.Some? then patch.slug.value else old(db.categories)[i].slug))
    {
      var found := FindFirst(db.categories, (c: Category) => c.id == id);
      if found.None? {
        r := Err(NotFound);
      } else {
        var i := found.value;
        var updated := Patched(db.categories[i], patch);
        db.categories := db.categories[i := updated];
        r := Ok(updated);
      }
    }

    /** Deletes the category with this id and returns it. */
    method Remove(id: Id) returns (r: Result<Category, StoreError>)
      requires db.Valid()
      modifies db
      ensures db.Valid()
      ensures db.products == old(db.products)
      ensures r.Err? <==> forall i :: 0 <= i < |old(db.categories)| ==> old(db.categories)[i].id != id
      ensures r.Err? ==> r.error == NotFound && db.categories == old(db.categories)
      ensures r.Ok? ==> exists i :: (0 <= i < |old(db.categories)| && old(db.categories)[i] == r.value
        && r.value.id == id && db.categories == Without(old(db.categories), i))
      ensures r.Ok? ==> forall i :: 0 <= i < |db.categories| ==> db.categories[i].id != id
      ensures CategorySlugsUnique(old(db.categories)) ==> CategorySlugsUnique(db.categories)
    {
      var found := FindFirst(db.categories, (c: Category) => c.id == id);
      if found.None? {
        r := Err(NotFound);
      } else {
        var i := found.value;
        r := Ok(db.categories[i]);
        RemoveCategoryKeepsKeys(db.categories, i);
        db.categories := Without(db.categories, i);
      }
    }
  }
}
