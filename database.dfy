/** The relational store behind both services: the category and product
    tables, the rows they hold, and the orderings the list endpoints ask of
    it. It stands for the ORM client the services call. */
module Database {

  import opened Wrappers
  import opened Seqs

  type Id = string

  datatype Category = Category(id: Id, name: string, slug: string)

  datatype Product = Product(id: Id, name: string, slug: string, categoryId: Id)

  /** A category row with its products included. */
  datatype CategoryWithProducts = CategoryWithProducts(category: Category, products: seq<Product>)

  /** A product row with its owning category included (absent when no
      category row carries the product's category id). */
  datatype ProductWithCategory = ProductWithCategory(product: Product, category: Option<Category>)

  /** The store's answer to an update or delete whose id matches no row. */
  datatype StoreError = NotFound

  /** The slugs in use in the category table. */
  function CategorySlugs(rows: seq<Category>): set<string> {
    set i | 0 <= i < |rows| :: rows[i].slug
  }

  /** The slugs in use in the product table. */
  function ProductSlugs(rows: seq<Product>): set<string> {
    set i | 0 <= i < |rows| :: rows[i].slug
  }

  ghost predicate CategoryIdsUnique(rows: seq<Category>) {
    forall i, j :: 0 <= i < j < |rows| ==> rows[i].id != rows[j].id
  }

  ghost predicate ProductIdsUnique(rows: seq<Product>) {
    forall i, j :: 0 <= i < j < |rows| ==> rows[i].id != rows[j].id
  }

  /** No two categories share a slug: what the create flow aims to keep. */
  ghost predicate CategorySlugsUnique(rows: seq<Category>) {
    forall i, j :: 0 <= i < j < |rows| ==> rows[i].slug != rows[j].slug
  }

  ghost predicate ProductSlugsUnique(rows: seq<Product>) {
    forall i, j :: 0 <= i < j < |rows| ==> rows[i].slug != rows[j].slug
  }

  function InCategory(categoryId: Id): Product -> bool {
    (p: Product) => p.categoryId == categoryId
  }

  /** The products a category includes, in table order. */
  function ProductsOf(rows: seq<Product>, categoryId: Id): (r: seq<Product>)
    ensures forall k :: 0 <= k < |r| ==> r[k].categoryId == categoryId
    ensures forall p :: p in r <==> p in rows && p.categoryId == categoryId
  {
    FilterMembersAll(rows, InCategory(categoryId));
    Filter(rows, InCategory(categoryId))
  }

  function WithProducts(c: Category, products: seq<Product>): (r: CategoryWithProducts)
    ensures r.category == c
    ensures forall p :: p in r.products <==> p in products && p.categoryId == c.id
  {
    CategoryWithProducts(c, ProductsOf(products, c.id))
  }

  /** `include: { Product: true }` over a list of categories: each row, in
      order, with its products. */
  function IncludeProducts(rows: seq<Category>, products: seq<Product>): (r: seq<CategoryWithProducts>)
    ensures |r| == |rows|
    ensures forall k :: 0 <= k < |r| ==> r[k].category == rows[k] && r[k].products == ProductsOf(products, rows[k].id)
  {
    seq(|rows|, k requires 0 <= k < |rows| => WithProducts(rows[k], products))
  }

  /** Products by name, under a string ordering. */
  function ByProductName(le: (string, string) -> bool): (Product, Product) -> bool {
    (a: Product, b: Product) => le(a.name, b.name)
  }

  /** Products by slug, ascending. */
  function ByProductSlug(le: (string, string) -> bool): (Product, Product) -> bool {
    (a: Product, b: Product) => le(a.slug, b.slug)
  }

  /** Categories by name, descending. */
  function ByCategoryNameDesc(le: (string, string) -> bool): (Category, Category) -> bool {
    (a: Category, b: Category) => le(b.name, a.name)
  }

  lemma OrderingsArePreorders(le: (string, string) -> bool)
    requires TotalPreorder(le)
    ensures TotalPreorder(ByProductName(le))
    ensures TotalPreorder(ByProductSlug(le))
    ensures TotalPreorder(ByCategoryNameDesc(le))
  {
    var byName := ByProductName(le);
    forall x: Product, y: Product ensures byName(x, y) || byName(y, x) {
      assert le(x.name, y.name) || le(y.name, x.name);
    }
    forall x: Product, y: Product, z: Product | byName(x, y) && byName(y, z) ensures byName(x, z) {
      assert le(x.name, y.name) && le(y.name, z.name);
    }
    var bySlug := ByProductSlug(le);
    forall x: Product, y: Product ensures bySlug(x, y) || bySlug(y, x) {
      assert le(x.slug, y.slug) || le(y.slug, x.slug);
    }
    forall x: Product, y: Product, z: Product | bySlug(x, y) && bySlug(y, z) ensures bySlug(x, z) {
      assert le(x.slug, y.slug) && le(y.slug, z.slug);
    }
    var desc := ByCategoryNameDesc(le);
    forall x: Category, y: Category ensures desc(x, y) || desc(y, x) {
      assert le(x.name, y.name) || le(y.name, x.name);
    }
    forall x: Category, y: Category, z: Category | desc(x, y) && desc(y, z) ensures desc(x, z) {
      assert le(z.name, y.name) && le(y.name, x.name);
    }
  }

  /** Appending a row with an unused id and an unused slug keeps ids unique,
      and keeps slugs unique when they were. */
  lemma AppendCategoryKeepsKeys(rows: seq<Category>, c: Category)
    requires CategoryIdsUnique(rows)
    requires forall i :: 0 <= i < |rows| ==> rows[i].id != c.id
    requires c.slug !in CategorySlugs(rows)
    ensures CategoryIdsUnique(rows + [c])
    ensures CategorySlugsUnique(rows) ==> CategorySlugsUnique(rows + [c])
  {
    forall i | 0 <= i < |rows| ensures rows[i].slug != c.slug {
      assert rows[i].slug in CategorySlugs(rows);
    }
  }

  lemma AppendProductKeepsKeys(rows: seq<Product>, p: Product)
    requires ProductIdsUnique(rows)
    requires forall i :: 0 <= i < |rows| ==> rows[i].id != p.id
    requires p.slug !in ProductSlugs(rows)
    ensures ProductIdsUnique(rows + [p])
    ensures ProductSlugsUnique(rows) ==> ProductSlugsUnique(rows + [p])
  {
    forall i | 0 <= i < |rows| ensures rows[i].slug != p.slug {
      assert rows[i].slug in ProductSlugs(rows);
    }
  }

  /** Deleting row `i` keeps ids unique, and slugs unique when they were,
      and leaves no row with the deleted id. */
  lemma RemoveCategoryKeepsKeys(rows: seq<Category>, i: nat)
    requires CategoryIdsUnique(rows) && i < |rows|
    ensures CategoryIdsUnique(Without(rows, i))
    ensures CategorySlugsUnique(rows) ==> CategorySlugsUnique(Without(rows, i))
    ensures forall k :: 0 <= k < |rows| - 1 ==> Without(rows, i)[k].id != rows[i].id
  {
  }

  lemma RemoveProductKeepsKeys(rows: seq<Product>, i: nat)
    requires ProductIdsUnique(rows) && i < |rows|
    ensures ProductIdsUnique(Without(rows, i))
    ensures ProductSlugsUnique(rows) ==> ProductSlugsUnique(Without(rows, i))
    ensures forall k :: 0 <= k < |rows| - 1 ==> Without(rows, i)[k].id != rows[i].id
  {
  }

  /** The two tables. `collation` is the order the database sorts strings in
      for `orderBy`; the list endpoints assume it is a total preorder. */
  class Db {
    var categories: seq<Category>
    var products: seq<Product>
    const collation: (string, string) -> bool

    /** The primary keys are unique. */
    ghost predicate Valid()
      reads this
    {
      && CategoryIdsUnique(categories)
      && ProductIdsUnique(products)
    }

    constructor (collation: (string, string) -> bool)
      ensures Valid() && this.collation == collation
      ensures categories == [] && products == []
    {
      this.collation := collation;
      categories := [];
      products := [];
    }
  }
}
