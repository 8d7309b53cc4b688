/**
 * The product service: create, read, update and delete products over the
 * product, user and category repositories, validating every reference before
 * anything is written.
 */
module Products {
  import opened Wrappers
  import opened Domain
  import opened Projection
  import opened Store

  class ProductService {
    /** The product repository, by id. */
    var products: map<Id, ProductEntity>
    /** The user repository, by id; never written by this service. */
    var users: map<Id, User>
    /** The category repository, by id; never written by this service. */
    var categories: map<Id, Category>
    /** The id the product repository assigns to the next product it saves. */
    var nextId: Id

    ghost predicate Valid()
      reads this
    {
      Consistent(products, users, categories, nextId)
    }

    constructor (products: map<Id, ProductEntity>, users: map<Id, User>,
                 categories: map<Id, Category>, nextId: Id)
      requires Consistent(products, users, categories, nextId)
      ensures Valid()
      ensures this.products == products && this.users == users
      ensures this.categories == categories && this.nextId == nextId
    {
      this.products := products;
      this.users := users;
      this.categories := categories;
      this.nextId := nextId;
    }

    /**
     * Looks up every requested category id, in no particular order, and
     * fails on the first id that has no category.
     */
    method ResolveCategories(ids: set<Id>) returns (r: Result<set<Category>, Error>)
      ensures r.Success? <==> ids <= categories.Keys
      ensures r.Success? ==> r.value == Image(categories, ids)
      ensures r.Failure? ==> r.error.kind == CategoryKind && r.error.id in ids && r.error.id !in categories
    {
      var found: set<Category> := {};
      var remaining := ids;
      while remaining != {}
        invariant remaining <= ids
        invariant ids - remaining <= categories.Keys
        invariant found == Image(categories, ids - remaining)
        decreases remaining
      {
        // Supplies the witness the pick below needs: a non-empty set has an element.
        if forall k :: k !in remaining {
          assert false;
        }
        var categoryId :| categoryId in remaining;
        if categoryId !in categories {
          return Failure(NotFound(CategoryKind, categoryId));
        }
        found := found + {categories[categoryId]};
        remaining := remaining - {categoryId};
      }
      return Success(found);
    }

    /** Every stored product, projected, in ascending id order. */
    function FindAll(): (r: seq<ProductResponse>)
      requires Valid()
      reads this
      ensures ResponseIds(r) == products.Keys
      ensures AscendingIds(r)
      ensures forall p :: p in r ==> p.id in products && p == ToResponseDto(products[p.id])
    {
      Listing(products, products.Keys)
    }

    function FindById(id: Id): (r: Result<ProductResponse, Error>)
      requires Valid()
      reads this
      ensures r.Success? <==> id in products
      ensures r.Failure? ==> r.error == NotFound(ProductKind, id)
      ensures r.Success? ==> r.value.id == id && r.value == ToResponseDto(products[id])
      ensures r.Success? ==> r.value.user.id in users && r.value.user == ToUserSummary(users[r.value.user.id])
      ensures r.Success? ==> forall s :: s in r.value.categories ==>
                               s.id in categories && s == ToCategorySummary(categories[s.id])
    {
      if id in products then
        var p := ToResponseDto(products[id]);
        assert forall s :: s in p.categories ==> s in multiset(p.categories);
        Success(p)
      else
        Failure(NotFound(ProductKind, id))
    }

    function FindByUserId(userId: Id): (r: Result<seq<ProductResponse>, Error>)
      requires Valid()
      reads this
      ensures r.Success? <==> userId in users
      ensures r.Failure? ==> r.error == NotFound(UserKind, userId)
      ensures r.Success? ==> ResponseIds(r.value) == set k | k in products && products[k].owner.id == userId
      ensures r.Success? ==> AscendingIds(r.value)
      ensures r.Success? ==> forall p :: p in r.value ==> p.id in products && p == ToResponseDto(products[p.id])
    {
      if userId !in users then
        Failure(NotFound(UserKind, userId))
      else
        Success(Listing(products, set k | k in products && products[k].owner.id == userId))
    }

    function FindByCategoryId(categoryId: Id): (r: Result<seq<ProductResponse>, Error>)
      requires Valid()
      reads this
      ensures r.Success? <==> categoryId in categories
      ensures r.Failure? ==> r.error == NotFound(CategoryKind, categoryId)
      ensures r.Success? ==> ResponseIds(r.value) == set k | k in products && HasCategory(products[k], categoryId)
      ensures r.Success? ==> AscendingIds(r.value)
      ensures r.Success? ==> forall p :: p in r.value ==> p.id in products && p == ToResponseDto(products[p.id])
    {
      if categoryId !in categories then
        Failure(NotFound(CategoryKind, categoryId))
      else
        Success(Listing(products, set k | k in products && HasCategory(products[k], categoryId)))
    }

    /**
     * Creates a product: the owner and every category must exist; the
     * repository assigns the next id and stamps both timestamps with `now`.
     */
    method Create(dto: CreateProductDto, now: Timestamp) returns (r: Result<ProductResponse, Error>)
      requires Valid()
      modifies this
      ensures Valid()
      ensures users == old(users) && categories == old(categories)
      ensures r.Success? <==> dto.userId in users && dto.categoryIds <= categories.Keys
      ensures dto.userId !in users ==> r == Failure(NotFound(UserKind, dto.userId))
      ensures dto.userId in users && r.Failure? ==>
                r.error.kind == CategoryKind && r.error.id in dto.categoryIds && r.error.id !in categories
      ensures r.Failure? ==> products == old(products) && nextId == old(nextId)
      ensures r.Success? ==>
                && old(nextId) !in old(products)
                && products == old(products)[old(nextId) := ProductEntity(
                     old(nextId), dto.name, dto.price, dto.description,
                     users[dto.userId], Image(categories, dto.categoryIds), now, now)]
      ensures r.Success? ==> r == FindById(old(nextId))
      ensures r.Success? ==> CategoryIds(r.value.categories) == dto.categoryIds
    {
      if dto.userId !in users {
        return Failure(NotFound(UserKind, dto.userId));
      }
      var owner := users[dto.userId];
      var resolved := ResolveCategories(dto.categoryIds);
      if resolved.Failure? {
        return Failure(resolved.error);
      }
      var entity := ProductEntity(0, dto.name, dto.price, dto.description, owner, {}, 0, 0);
      entity := entity.(categories := resolved.value);
      // The repository's save: assigns the id and the timestamps, then stores.
      var saved := entity.(id := nextId, createdAt := now, updatedAt := now);
      products := products[nextId := saved];
      nextId := nextId + 1;
      ImageIds(categories, dto.categoryIds);
      ResponseCategoryIds(saved);
      r := Success(ToResponseDto(saved));
    }

    /**
     * Updates a product: scalars given in the request replace the stored
     * ones, absent ones are kept; the category set is replaced by the
     * resolved request ids.
     */
    method Update(id: Id, dto: UpdateProductDto) returns (r: Result<ProductResponse, Error>)
      requires Valid()
      modifies this
      ensures Valid()
      ensures users == old(users) && categories == old(categories) && nextId == old(nextId)
      ensures r.Success? <==> id in old(products) && dto.categoryIds <= categories.Keys
      ensures id !in old(products) ==> r == Failure(NotFound(ProductKind, id))
      ensures id in old(products) && r.Failure? ==>
                r.error.kind == CategoryKind && r.error.id in dto.categoryIds && r.error.id !in categories
      ensures products.Keys == old(products).Keys
      ensures r.Failure? ==> products == old(products)
      ensures r.Success? ==>
                var before, after := old(products)[id], products[id];
                && products == old(products)[id := after]
                && after.id == before.id && after.owner == before.owner
                && after.createdAt == before.createdAt && after.updatedAt == before.updatedAt
                && after.name == (if dto.name.Some? then dto.name.value else before.name)
                && after.price == (if dto.price.Some? then dto.price.value else before.price)
                && after.description == (if dto.description.Some? then dto.description else before.description)
                && after.categories == Image(categories, dto.categoryIds)
      ensures r.Success? ==> r == FindById(id)
      ensures r.Success? ==> CategoryIds(r.value.categories) == dto.categoryIds
    {
      if id !in products {
        return Failure(NotFound(ProductKind, id));
      }
      var existing := products[id];
      var resolved := ResolveCategories(dto.categoryIds);
      if resolved.Failure? {
        return Failure(resolved.error);
      }
      var newCategories := resolved.value;
      // The domain object's own update is computed and discarded: no effect.
      existing := existing.(description := if dto.description.Some? then dto.description else existing.description);
      existing := existing.(name := if dto.name.Some? then dto.name.value else existing.name);
      existing := existing.(price := if dto.price.Some? then dto.price.value else existing.price);
      existing := existing.(categories := {});
      existing := existing.(categories := newCategories);
      ImageStored(categories, dto.categoryIds);
      StorePreservesConsistent(products, users, categories, nextId, existing);
      products := products[id := existing];
      ImageIds(categories, dto.categoryIds);
      ResponseCategoryIds(existing);
      r := Success(ToResponseDto(existing));
    }

    /** Physically removes a product. */
    method Delete(id: Id) returns (r: Outcome<Error>)
      requires Valid()
      modifies this
      ensures Valid()
      ensures users == old(users) && categories == old(categories) && nextId == old(nextId)
      ensures r.Pass? <==> id in old(products)
      ensures r.Fail? ==> r.error == NotFound(ProductKind, id)
      ensures products == old(products) - {id}
      ensures FindById(id) == Failure(NotFound(ProductKind, id))
    {
      if id !in products {
        return Fail(NotFound(ProductKind, id));
      }
      products := products - {id};
      r := Pass;
    }
  }
}
