# Product catalog service — Dafny model

This project models the product service of a Spring product catalog
(`ProductServiceImpl`). A product belongs to exactly one user and to any
number of categories. The service creates, reads, updates and deletes
products. It checks every reference before it writes anything, and it
projects a stored product into a response: a nested owner summary and the
category summaries sorted by name.

Layout (one module per file):

- `wrappers.dfy` (`Wrappers`): `Option` (a nullable value), `Result`
  (returns a value or throws), `Outcome` (returns nothing or throws).
- `java_string.dfy` (`JavaString`): `String.compareTo` as Java defines it.
  It also holds the lemmas that make it a total order: equal exactly on
  equal strings, antisymmetric, transitive.
- `domain.dfy` (`Domain`): users, categories, the stored product entity,
  the create and update requests, the response shapes, and the one error
  kind, `NotFound`.
- `projection.dfy` (`Projection`): `toResponseDto` and
  `toCategorySummary`. The summaries are listed in sorted order, and the
  file proves that this order is sorted by name and a permutation.
- `store.dfy` (`Store`): the three repositories as maps keyed by id, and
  the consistency they keep (`Consistent`: every owner and category a
  product refers to is stored). It also holds the list helpers that the
  lookups use.
- `product_service.dfy` (`Products`): the service as a class. Its fields
  are the three repository maps and the repository's next id. Category
  resolution is a loop. Create, update and delete are methods that change
  the maps. The lookups are functions over the maps.
- `scenarios.dfy` (`Scenarios`): client methods that show what a caller can
  conclude from the contracts alone. One creates a pen in two categories
  and then reprices it and moves it to a third. One shows an update with a
  missing category changing nothing. One shows a product-less user getting
  an empty list. One deletes a product twice.

The code sorts a stream over a `HashSet`. Such a stream is unordered, so
Java gives no order among categories with equal names; the model orders
those by id, then by description.

## Model

| member | source | states |
|---|---|---|
| `Products.ProductService.constructor` | src/main/java/ec/edu/ups/icc/fundamentos01/products/services/ProductServiceImpl.java:36-41 | the service starts over the given repositories, which must be consistent |
| `Products.ProductService.ResolveCategories` | src/main/java/ec/edu/ups/icc/fundamentos01/products/services/ProductServiceImpl.java:189-199 | succeeds exactly when every requested id has a stored category, and then returns exactly the stored categories those ids name (none for no ids); otherwise fails with NotFound naming a requested id that has no category |
| `Store.ImageIds` | src/main/java/ec/edu/ups/icc/fundamentos01/products/services/ProductServiceImpl.java:192-196 | when every requested id resolves, the ids of the resolved categories are exactly the requested ids: nothing dropped, nothing extra |
| `Store.ImageStored` | src/main/java/ec/edu/ups/icc/fundamentos01/products/services/ProductServiceImpl.java:193-195 | every resolved category is the stored record under its own id |
| `Products.ProductService.FindAll` | src/main/java/ec/edu/ups/icc/fundamentos01/products/services/ProductServiceImpl.java:44-50 | one response per stored product, in ascending id order, each the projection of that product |
| `Products.ProductService.FindById` | src/main/java/ec/edu/ups/icc/fundamentos01/products/services/ProductServiceImpl.java:53-57 | NotFound exactly when no product has the id; otherwise the projection of that product, whose owner summary and category summaries all match stored users and categories |
| `Products.ProductService.FindByUserId` | src/main/java/ec/edu/ups/icc/fundamentos01/products/services/ProductServiceImpl.java:60-71 | NotFound exactly when the user does not exist; otherwise the projections of exactly the products that user owns, possibly none, in ascending id order |
| `Products.ProductService.FindByCategoryId` | src/main/java/ec/edu/ups/icc/fundamentos01/products/services/ProductServiceImpl.java:74-85 | NotFound exactly when the category does not exist; otherwise the projections of exactly the products associated with it, possibly none, in ascending id order |
| `Store.Listing` | src/main/java/ec/edu/ups/icc/fundamentos01/products/services/ProductServiceImpl.java:67-70 | mapping a set of stored products to responses yields one response per product id, no more, in ascending id order |
| `Products.ProductService.Create` | src/main/java/ec/edu/ups/icc/fundamentos01/products/services/ProductServiceImpl.java:88-108 | a missing owner or a missing category fails with NotFound and writes nothing; otherwise exactly one product is added under a fresh id, with the given scalars, the owner record and exactly the resolved categories; a later find by that id returns the same response; the response lists exactly the requested category ids; the repositories stay consistent |
| `Products.ProductService.Update` | src/main/java/ec/edu/ups/icc/fundamentos01/products/services/ProductServiceImpl.java:111-134 | a missing product or a missing category fails with NotFound and changes nothing; otherwise name, price and description are replaced when given and kept when null; id, owner and timestamps are kept; the category set becomes exactly the resolved set, with nothing of the old set merged in; a later find returns the same response; the repositories stay consistent |
| `Store.StorePreservesConsistent` | src/main/java/ec/edu/ups/icc/fundamentos01/products/services/ProductServiceImpl.java:129-132 | saving a product whose owner and categories are stored keeps every reference in the repositories resolvable |
| `Products.ProductService.Delete` | src/main/java/ec/edu/ups/icc/fundamentos01/products/services/ProductServiceImpl.java:137-144 | NotFound exactly when the product is absent; otherwise that product, and only it, is removed, and a later find by its id fails |
| `Projection.ToCategorySummary` | src/main/java/ec/edu/ups/icc/fundamentos01/products/services/ProductServiceImpl.java:179-185 | id, name and description are copied, so the category can be read back from its summary; `Projection.SummariesCardinality` is the consequence that no two categories share a summary |
| `Projection.ToUserSummary` | src/main/java/ec/edu/ups/icc/fundamentos01/products/services/ProductServiceImpl.java:161-165 | the owner's id, name and email are copied, so the owner can be read back from the summary |
| `Projection.ToResponseDto` | src/main/java/ec/edu/ups/icc/fundamentos01/products/services/ProductServiceImpl.java:151-177 | id, name, price, description and timestamps are copied; the owner summary is the owner's (id, name, email); the category list is sorted ascending by name and is a permutation of the product's categories as summaries, one per category |
| `Store.ResponseCategoryIds` | src/main/java/ec/edu/ups/icc/fundamentos01/products/services/ProductServiceImpl.java:167-171 | the category ids a response lists are exactly the ids of the product's categories |
| `Projection.SummariesCardinality` | src/main/java/ec/edu/ups/icc/fundamentos01/products/services/ProductServiceImpl.java:179-185 | distinct categories give distinct summaries, so no category is lost in the projection |
| `Projection.SortedSummaries` | src/main/java/ec/edu/ups/icc/fundamentos01/products/services/ProductServiceImpl.java:168-171 | the summaries of a set listed in ascending order, each element exactly once |
| `Projection.SummaryLeSortedIsNameSorted` | src/main/java/ec/edu/ups/icc/fundamentos01/products/services/ProductServiceImpl.java:170 | a list in the model's order is sorted by name under the source's comparator |
| `Projection.SortedSummariesUnique` | src/main/java/ec/edu/ups/icc/fundamentos01/products/services/ProductServiceImpl.java:168-171 | the sorted list is fully determined by the set of categories, whatever order the set is held in |
| `Projection.ProjectionOrdersByName` | src/main/java/ec/edu/ups/icc/fundamentos01/products/services/ProductServiceImpl.java:170 | categories named Zebra, Apple and Mango come out as Apple, Mango, Zebra |
| `Projection.SummaryLeTransitive` | src/main/java/ec/edu/ups/icc/fundamentos01/products/services/ProductServiceImpl.java:170 | the listing order (name, then id, then description) is transitive; with the totality and antisymmetry lemmas beside it, it is a total order |
| `JavaString.CompareToZeroIffEqual` | src/main/java/ec/edu/ups/icc/fundamentos01/products/services/ProductServiceImpl.java:170 | the name comparator returns zero exactly on equal names |
| `JavaString.CompareToAntisymmetric` | src/main/java/ec/edu/ups/icc/fundamentos01/products/services/ProductServiceImpl.java:170 | swapping the arguments of the name comparator negates its result |
| `JavaString.CompareToTransitive` | src/main/java/ec/edu/ups/icc/fundamentos01/products/services/ProductServiceImpl.java:170 | the name comparator is transitive |

## Left out

- Spring wiring and the JPA repositories are not modelled. The
  repositories are maps keyed by id. The product repository's `save` hands
  out the next id (`nextId`) on the first save. Users and categories are
  only read.
- Timestamps are opaque integers. Create stamps both with a `now`
  parameter, because storage assigns them on the first save. Update keeps
  them as they were; any refresh of `updatedAt` by the persistence layer is
  not part of this model.
- The `Product` domain class and the mapper are not part of this model.
  `Product.fromDto`/`toEntity` are taken to copy name, price and
  description. The result of `product.update(dto)` is discarded in the
  source, so the model gives it no effect.
- `Products.ProductService.FindAll`: the source projects through the
  domain mapper (`Product::fromEntity`, `Product::toResponseDto`), which is
  not part of this model. The model uses the same projection as the other
  lookups.
- The repositories' list order (`findAll`, `findByOwnerId`,
  `findByCategoryId`) is not visible. The model lists products in
  ascending id order.
- `findByCategoryId` is a repository query that is not part of this model.
  It is modelled as "the products whose category set holds a category with
  that id".
- `HashSet` iteration order is not modelled. Category resolution visits the
  requested ids in an unspecified order, so the model reports some
  requested id that is missing, not a particular one.
- Category summaries with equal names: the source gives them no order (see
  above); the model orders them by id and then by description.
- Strings are sequences of Unicode scalar values. Java's `compareTo`
  compares UTF-16 code units, so for characters outside the Basic
  Multilingual Plane the model's order can differ from Java's.
- The price is an integer. The source's numeric type is not visible, and
  the service does no arithmetic on it.
- Exception messages are not modelled. An error carries the entity kind
  and the id that was looked up, although two messages do not include the
  id: a missing owner in create and a missing product in update. `ConflictException` and
  `BusinessException` are imported but never raised, so they are not
  modelled.
- Null `categoryIds` in an update is not modelled; the source would fail
  with a null-pointer exception there. In a create request, a null
  `userId` or a null `categoryIds` would make the lookups throw; these,
  and null names and prices, are not modelled either.
- The entity is a value. Update's setters become successive record updates
  of a local copy, which is then stored. Aliasing of the managed JPA entity
  is not captured.
- Deleting a user or a category elsewhere, which could leave a product with
  a dangling reference, is outside this service and is not modelled.
- Concurrency between requests, and last-write-wins at the storage layer,
  are not modelled.
- The startup role bootstrapping in `DataInitializer` is not part of the
  product logic and is not modelled.
