# Slugged catalogue services in Dafny

This project models the core of a small NestJS catalogue back end. The
back end keeps categories and products in a relational store, and each row
carries a URL slug derived from its name.

The model covers three source files:

- `generateSlug` is a pure string pipeline. It trims the name, deletes
  every character that is neither a word character nor whitespace, turns
  each run of whitespace into one `-`, and lower-cases the result.
- `generateUniqueHash` returns a five-character alphanumeric token.
- `CategoryService` and `ProductService` each have:
  - a `create` that retries with `slug-token` candidates until the slug
    is free;
  - a paginated `findAll`;
  - lookups by id (and, for categories, by slug);
  - a pass-through `update` and `remove`.

Layout, one module per file:

- `wrappers.dfy` (`Wrappers`) holds `Option` and `Result`.
- `seqs.dfy` (`Seqs`) holds sequence helpers:
  - filtering;
  - first match;
  - deletion at an index;
  - a stable insertion sort under a total preorder.
- `paging.dfy` (`Paging`) holds the skip/take window and the ceiling page
  count.
- `slugs.dfy` (`Slugs`) models `gerador-slug.ts`.
- `slug_retry.dfy` (`SlugRetry`) holds the candidate sequence the two
  `create` loops walk, and what "the first free candidate" means.
- `database.dfy` (`Database`) holds the rows, the store class `Db`, and
  lemmas about keeping keys unique.
- `category_service.dfy` (`Categories`) models
  `src/modules/category/category.service.ts`.
- `product_service.dfy` (`Products`) models
  `src/modules/product/product.service.ts`.

The ORM client becomes the class `Db`:

- `Db` holds two tables, as sequences of rows in table order.
- Its `collation` is the ordering the database sorts strings by.
- Each service is a class holding a reference to the store.
- Queries are methods that leave the store unchanged.
- `create`, `update` and `remove` are methods that modify it and state the
  new tables in full.

The two `create` methods keep the source's `while` loop:

- The random tokens arrive as a parameter, `tokens`: the values the token
  generator would return, in order.
- The loop invariant ties the current candidate to
  `SlugRetry.Candidate(GenerateSlug(name), tokens, drawn)`.
- At the end, the chosen slug is the first candidate absent from the table
  (`SlugRetry.FirstFree`).

Whitespace is the set of JavaScript `\s` and `trim()` code points:

- ECMAScript WhiteSpace plus LineTerminator.
- `\w` without the `u` flag is ASCII `[A-Za-z0-9_]`.
- Lower-casing is therefore only ever applied to ASCII, and is modelled
  exactly.

`generateSlug` is not idempotent, although it is easily taken to be.
Applying it again deletes the hyphens it produced the first time.
`Slugs.SlugIdempotentIff` proves exactly when a second application changes
nothing: when the slug has no hyphen.

## Model

| member | source | states |
|---|---|---|
| Slugs.IsSpace | src/infra/utils/gerador-slug.ts:4-6 | the whitespace of `trim()` and `\s`: the ECMAScript WhiteSpace and LineTerminator code points |
| Slugs.SpaceIsWhitespace | src/infra/utils/gerador-slug.ts:4-6 | `IsSpace` holds for exactly the 25 listed code points (U+0009 to U+000D, U+0020, U+00A0, U+1680, U+2000 to U+200A, U+2028, U+2029, U+202F, U+205F, U+3000, U+FEFF) |
| Slugs.IsWordChar | src/infra/utils/gerador-slug.ts:5 | `\w` without the `u` flag: ASCII letters, digits and `_` |
| Slugs.IsKept | src/infra/utils/gerador-slug.ts:5 | the characters `[^\w\s]` does not match: word characters and whitespace |
| Slugs.LeadingSpace | src/infra/utils/gerador-slug.ts:4 | counts the leading whitespace: every character before the count is whitespace, and the one at the count is not |
| Slugs.TrailingSpaceStart | src/infra/utils/gerador-slug.ts:4 | the length without trailing whitespace: everything after it is whitespace and the character before it is not |
| Slugs.Trim | src/infra/utils/gerador-slug.ts:4 | `trim()` never lengthens; the result neither starts nor ends with whitespace; it is empty exactly when the input is all whitespace; `TrimKeepsMiddle` shows only the two ends are removed |
| Slugs.TrimKeepsMiddle | src/infra/utils/gerador-slug.ts:4 | every name is a whitespace prefix, its trim and a whitespace suffix: `trim()` removes whitespace at the two ends only and keeps every interior character, interior whitespace included, in place |
| Slugs.StripSpecial | src/infra/utils/gerador-slug.ts:5 | deleting `[^\w\s]` keeps only word characters and whitespace and never lengthens |
| Slugs.CollapseSpaces | src/infra/utils/gerador-slug.ts:6 | replacing whitespace runs by `-` leaves no whitespace and never lengthens; `CollapseIsSqueeze` ties it to the reference definition |
| Slugs.SpacesToHyphens | src/infra/utils/gerador-slug.ts:6 | reference step one: every whitespace character becomes `-`, every other character stays, position by position |
| Slugs.Hyphens | src/infra/utils/gerador-slug.ts:6 | a run of `k` hyphens |
| Slugs.SqueezeRun | src/infra/utils/gerador-slug.ts:6 | reference step two (`Squeeze`, which drops each `-` that follows a `-`) turns a hyphen run in front of a non-hyphen into one `-` |
| Slugs.SpacesToHyphensSplit | src/infra/utils/gerador-slug.ts:6 | a leading whitespace run of length `n` maps to `n` hyphens |
| Slugs.CollapseIsSqueeze | src/infra/utils/gerador-slug.ts:6 | on every hyphen-free string, the collapse equals mapping whitespace to `-` and squeezing hyphen runs: each maximal whitespace run becomes exactly one `-` |
| Slugs.SlugBySqueeze | src/infra/utils/gerador-slug.ts:3-8 | for every name, the slug is the lower-cased, squeezed, whitespace-to-hyphen form of the trimmed and stripped name |
| Slugs.Lower | src/infra/utils/gerador-slug.ts:7 | lower-casing keeps the length, maps each upper-case ASCII letter to the letter 32 code points above it (`A` to `a`), leaves no upper-case letter and changes nothing else |
| Slugs.GenerateSlug | src/infra/utils/gerador-slug.ts:3-8 | total; the slug is never longer than the name |
| Slugs.SlugAlphabet | src/infra/utils/gerador-slug.ts:5-7 | every slug character is a lower-case ASCII letter, a digit, `_` or `-` |
| Slugs.CollapseAlphabet | src/infra/utils/gerador-slug.ts:5-6 | collapsing a string of word characters and whitespace yields only word characters and hyphens |
| Slugs.LowerAlphabet | src/infra/utils/gerador-slug.ts:7 | lower-casing word characters and hyphens yields slug characters |
| Slugs.SlugNoDoubleHyphen | src/infra/utils/gerador-slug.ts:5-6 | a slug never contains `--` |
| Slugs.CollapseNoDoubleHyphen | src/infra/utils/gerador-slug.ts:6 | collapsing a hyphen-free string never produces adjacent hyphens |
| Slugs.CollapseKeepsNonSpace | src/infra/utils/gerador-slug.ts:6 | collapsing only replaces whitespace: with hyphens removed, the result is the input's non-whitespace characters in order |
| Slugs.SpaceRunDropped | src/infra/utils/gerador-slug.ts:6 | a whitespace run that the regex consumes holds no non-whitespace character |
| Slugs.TrimTrim | src/infra/utils/gerador-slug.ts:4 | trimming twice equals trimming once |
| Slugs.SlugIgnoresSurroundingSpace | src/infra/utils/gerador-slug.ts:4 | `generateSlug(trim(n)) == generateSlug(n)` |
| Slugs.SlugOfBlank | src/infra/utils/gerador-slug.ts:3-8 | an empty or all-whitespace name gives the empty slug |
| Slugs.CollapseWithoutSpace | src/infra/utils/gerador-slug.ts:6 | a string without whitespace is left unchanged by the collapse |
| Slugs.TrimSpaceless | src/infra/utils/gerador-slug.ts:4 | a string without whitespace is its own trim |
| Slugs.SlugOfWord | src/infra/utils/gerador-slug.ts:3-8 | a name made only of word characters maps to its lower-case form |
| Slugs.SlugOfSpaceless | src/infra/utils/gerador-slug.ts:3-8 | a name without whitespace gives a slug without hyphens |
| Slugs.SlugIdempotentIff | src/infra/utils/gerador-slug.ts:3-8 | re-applying the generator returns the same slug if and only if the slug has no hyphen |
| Slugs.GenerateUniqueHash | src/infra/utils/gerador-slug.ts:10-15 | the token is five characters, each a digit or an ASCII letter |
| Slugs.AlphanumericAt | src/infra/utils/gerador-slug.ts:13 | the `alphanumeric` charset, digits then `a`-`z` then `A`-`Z`; every entry is alphanumeric |
| Slugs.AlphanumericIndex | src/infra/utils/gerador-slug.ts:13 | every alphanumeric character sits in the 62-character charset |
| Slugs.EveryTokenReachable | src/infra/utils/gerador-slug.ts:10-15 | every five-character alphanumeric string is a possible token |
| SlugRetry.Candidate | src/modules/category/category.service.ts:15-20 | the slug tried after `k` retries: the generated slug, or the generated slug, `-` and the `k`-th token, rebuilt from the name each time (also src/modules/product/product.service.ts:12-17) |
| SlugRetry.RetryStep | src/modules/category/category.service.ts:18-21 | while the candidate is taken and some later candidate is free, a token remains, and every candidate so far is taken |
| SlugRetry.RetryExit | src/modules/category/category.service.ts:18-21 | when the loop stops, its slug is the first free candidate |
| SlugRetry.CandidateShape | src/modules/category/category.service.ts:19-20 | every retry candidate is the generated slug, then `-`, then one token; suffixes never pile up |
| SlugRetry.FirstFreeCases | src/modules/category/category.service.ts:15-21 | the chosen slug is free; it is the generated slug when that is free, and otherwise the generated slug plus `-` and a token |
| SlugRetry.SecondShoesGetsSuffix | src/modules/product/product.service.ts:11-18 | with `shoes` taken, creating "Shoes" yields `shoes-` plus five alphanumerics |
| SlugRetry.ShoesSlug | src/infra/utils/gerador-slug.ts:3-8 | `generateSlug("Shoes") == "shoes"` |
| Seqs.Filter | src/modules/category/category.service.ts:47-49 | the rows a `where`/`include` keeps all satisfy the condition, and there are no more of them than rows |
| Seqs.FilterMembers | src/modules/category/category.service.ts:47-49 | every row kept comes from the input |
| Seqs.FilterAll | src/modules/category/category.service.ts:47-49 | when every row matches, all are kept |
| Seqs.FilterKeeps | src/modules/category/category.service.ts:47-49 | a property every input row has, every kept row has |
| Seqs.FilterAppend | src/modules/category/category.service.ts:47-49 | filtering distributes over concatenation |
| Seqs.FindFirst | src/modules/category/category.service.ts:83-90 | `findFirst` returns the first matching row, and nothing exactly when no row matches |
| Seqs.Without | src/modules/category/category.service.ts:101-105 | deleting a row keeps every other row, in order |
| Seqs.Insert | src/modules/category/category.service.ts:74-76 | inserting adds exactly that element |
| Seqs.SortBy | src/modules/category/category.service.ts:74-76 | `Array.prototype.sort` returns a permutation of its input |
| Seqs.InsertSorted | src/modules/category/category.service.ts:74-76 | inserting into an ordered list keeps it ordered under a total preorder |
| Seqs.SortBySorted | src/modules/category/category.service.ts:74-76 | the sort's output is ordered by the comparator whenever the comparator is a total preorder |
| Paging.PageCount | src/modules/product/product.service.ts:42 | `Math.ceil(total / size)`: the least page count whose pages hold all rows |
| Paging.Skip | src/modules/product/product.service.ts:26 | the offset is `(page - 1) * size` and is never negative for page 1 on |
| Paging.Window | src/modules/product/product.service.ts:29-31 | skip/take keeps at most `take` rows, each the row `skip` places further on in the result |
| Paging.WindowOrdered | src/modules/product/product.service.ts:29-35 | a window of an ordered result is ordered |
| Paging.WindowSubMultiset | src/modules/product/product.service.ts:29-31 | a window holds only rows of the result |
| Paging.PageHasRowsIff | src/modules/product/product.service.ts:25-43 | a page is non-empty exactly when its number is at most the page count |
| Paging.RowOnItsPage | src/modules/product/product.service.ts:25-43 | every row appears on page `k / size + 1`, which is within the page count |
| Paging.TwelveRowsInPagesOfFive | src/modules/product/product.service.ts:25-43 | twelve rows in pages of five make three pages, the second holding rows 5 to 9 and the fourth empty; no rows make zero pages |
| Database.Db.constructor | src/modules/category/category.service.ts:12 | the store the services are given (the ORM client): two tables and a collation, starting empty with unique keys |
| Database.ProductsOf | src/modules/category/category.service.ts:47-49 | the products a category includes: exactly the stored products whose `categoryId` is its id, in table order (also lines 67-69 and 87-89) |
| Database.WithProducts | src/modules/category/category.service.ts:67-69 | a category row with `include: { Product: true }`: the row itself and exactly the products referencing it |
| Database.IncludeProducts | src/modules/category/category.service.ts:44-53 | `include` over a result list: each row in order, each with exactly its products |
| Seqs.FilterMembersAll | src/modules/category/category.service.ts:47-49 | an element is kept exactly when it is in the input and satisfies the condition |
| Database.OrderingsArePreorders | src/modules/product/product.service.ts:32-34 | ordering rows by a field, ascending or descending, under a total preorder on strings is a total preorder |
| Database.AppendCategoryKeepsKeys | src/modules/category/category.service.ts:23-25 | inserting a category with an unused id and a free slug keeps ids unique, and keeps slugs unique when they were |
| Database.AppendProductKeepsKeys | src/modules/product/product.service.ts:20-22 | the same for products |
| Database.RemoveCategoryKeepsKeys | src/modules/category/category.service.ts:101-105 | deleting a category keeps ids (and slugs) unique and leaves no row with its id |
| Database.RemoveProductKeepsKeys | src/modules/product/product.service.ts:62-66 | the same for products |
| Categories.Truthy | src/modules/category/category.service.ts:38 | JavaScript truthiness of the optional `totalPages`: present and non-zero (also line 60) |
| Categories.Patched | src/modules/category/category.service.ts:95-98 | the row after `update` with the caller's data: the id stays, a supplied name or slug replaces the stored one, an absent one is kept |
| Categories.CategoryService.IsSlugTaken | src/modules/category/category.service.ts:107-112 | true exactly when some stored category has that slug |
| Categories.CategoryService.Create | src/modules/category/category.service.ts:14-26 | inserts one row carrying the caller's name, the fresh id and the first free candidate slug; other rows and the product table are unchanged; slug uniqueness is kept |
| Categories.CategoryService.FindAll | src/modules/category/category.service.ts:29-62 | page defaults to 1; a truthy `totalPages` gives `totalCount = totalPages * itemsPerPage` and is echoed, otherwise the count and ceiling come from the table; data is exactly the skip/take window of the categories by name descending (every row of it, in order), each with its products; at most `itemsPerPage` rows, ordered by name descending, empty exactly past the last page |
| Categories.CategoryService.FindById | src/modules/category/category.service.ts:64-80 | nothing exactly when no category has the id; otherwise that category, with its products as a permutation of those referencing it, sorted by name under the locale order |
| Categories.CategoryService.GetBySlug | src/modules/category/category.service.ts:82-92 | nothing exactly when no category has the slug; otherwise the first such category, with its products |
| Categories.CategoryService.Update | src/modules/category/category.service.ts:94-99 | fails with NotFound exactly when the id is absent; otherwise only that row changes, only in the supplied fields, and the slug changes only when one is supplied |
| Categories.CategoryService.Remove | src/modules/category/category.service.ts:101-105 | fails with NotFound exactly when the id is absent; otherwise exactly that row is deleted and returned, and the rest keep their order |
| Products.PatchedProduct | src/modules/product/product.service.ts:56-59 | the row after `update`: the id stays, each supplied name, slug or category id replaces the stored one, absent ones are kept |
| Products.ProductService.IsSlugTaken | src/modules/product/product.service.ts:68-73 | true exactly when some stored product has that slug |
| Products.ProductService.Create | src/modules/product/product.service.ts:11-23 | inserts one row carrying the caller's name and category id, the fresh id and the first free candidate slug; nothing else changes; slug uniqueness is kept |
| Products.ProductService.FindAll | src/modules/product/product.service.ts:25-44 | page and page size default to 1 and 5 and are echoed; `totalCount` is the table size and `totalPages` its ceiling over the page size; data is the skip/take window of the products by slug ascending, at most one page, ordered, drawn from the table, empty exactly past the last page |
| Products.ProductService.FindOne | src/modules/product/product.service.ts:46-53 | nothing exactly when no product has the id; otherwise that product with the category its `categoryId` names, or no category when none does |
| Products.ProductService.Update | src/modules/product/product.service.ts:55-60 | fails with NotFound exactly when the id is absent; otherwise only that row changes, only in the supplied fields |
| Products.ProductService.Remove | src/modules/product/product.service.ts:62-66 | fails with NotFound exactly when the id is absent; otherwise exactly that row is deleted and returned, and the rest keep their order |

## Left out

- `async`/`await` are not modelled. Each service call is one atomic step, so the race between two concurrent creators is out of scope.
- The race matters because check-then-insert is not atomic: two creators can both find the same slug free.
- Randomness is not modelled. `generateUniqueHash` is a function of five draws, and `create` receives the tokens the generator would return.
- Categories.CategoryService.Create: requires that some candidate among the supplied tokens is free. The source loop has no bound, and nothing guarantees it stops.
- Products.ProductService.Create: the same termination precondition applies.
- The id the database assigns to a new row is a parameter (`freshId`), required to be unused.
- Unique-index violations are not modelled.
- Foreign-key checks are not modelled. A product may name a missing category, and `FindOne` then returns no category.
- Cascading deletes are not modelled. Removing a category leaves its products as they are.
- The ORM's own validation of `update` data is not modelled.
- `localeCompare` becomes an abstract total preorder passed to `FindById`. The database's string order is the abstract `Db.collation`. Which strings compare equal is left open.
- Categories.CategoryService.FindAll: rows that tie under the collation (equal names) come out in table order, because the model sorts with a stable sort. The database promises no order among ties, so the model fixes one of several orders the source allows.
- Products.ProductService.FindAll: the same holds for products whose slugs tie under the collation.
- Categories.CategoryService.FindAll: requires `page >= 1` and `itemsPerPage >= 1`. The source does not check them; an absent `itemsPerPage` becomes `NaN` and a zero becomes division by zero. JavaScript coercion of the unary `+` is not modelled.
- Products.ProductService.FindAll: requires `page >= 1` and `pageSize >= 1`, for the same reason.
- `Math.ceil` on a floating-point quotient is modelled as integer ceiling division. The two agree on the non-negative integers used here.
- Strings are sequences of code points, not UTF-16 code units. Only lengths of non-BMP names would differ.
- The DTOs carry only the fields the model keeps:
  - a name, plus a category id for products;
  - for updates, also the slug and, for products, the category id.
  The services read only the name; the other fields pass to the store unread, through `{ ...data, slug }` and `data: updateDto`. Any further DTO field, which `...data` would copy into the new row, is dropped.
- Dependency-injection wiring and HTTP routing are not modelled.
- `src/app.module.ts` and `src/modules/category/category.module.ts` are not part of this model.
