/**
 * The entities, request shapes, response shapes and errors the product
 * service works with.
 */
module Domain {
  import opened Wrappers

  /** Storage identifiers (Java Long). */
  type Id = int

  /** A product's price; the service only copies it, so any value type does. */
  type Price = int

  /** A storage-managed timestamp; the service only copies it. */
  type Timestamp = int

  datatype User = User(id: Id, name: string, email: string)

  datatype Category = Category(id: Id, name: string, description: string)

  /**
   * A stored product. Like the persisted entity, it carries its owner record
   * and the set of category records it is associated with; its description
   * may be null.
   */
  datatype ProductEntity = ProductEntity(
    id: Id,
    name: string,
    price: Price,
    description: Option<string>,
    owner: User,
    categories: set<Category>,
    createdAt: Timestamp,
    updatedAt: Timestamp)

  /** The create request: every field is supplied (the description may be null). */
  datatype CreateProductDto = CreateProductDto(
    userId: Id,
    name: string,
    price: Price,
    description: Option<string>,
    categoryIds: set<Id>)

  /**
   * The update request: a None scalar means "not given" (null in the request);
   * the category ids are always supplied.
   */
  datatype UpdateProductDto = UpdateProductDto(
    name: Option<string>,
    price: Option<Price>,
    description: Option<string>,
    categoryIds: set<Id>)

  datatype UserSummary = UserSummary(id: Id, name: string, email: string)

  datatype CategorySummary = CategorySummary(id: Id, name: string, description: string)

  datatype ProductResponse = ProductResponse(
    id: Id,
    name: string,
    price: Price,
    description: Option<string>,
    user: UserSummary,
    categories: seq<CategorySummary>,
    createdAt: Timestamp,
    updatedAt: Timestamp)

  datatype EntityKind = ProductKind | UserKind | CategoryKind

  /** The one error the service raises: a referenced record does not exist. */
  datatype Error = NotFound(kind: EntityKind, id: Id)
}
