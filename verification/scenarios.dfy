/** Clients of the service: what a caller can conclude from the contracts alone. */
module Scenarios {
  import opened Wrappers
  import opened Domain
  import opened Store
  import opened Products

  /** A user without products has an empty list, not an error. */
  method ProductlessUserScenario()
  {
    var ana := User(1, "Ana", "ana@example.com");
    var service := new ProductService(map[], map[1 := ana], map[], 1);
    var none := service.FindByUserId(1);
    assert none.Success? && none.value == [];
    var nobody := service.FindByUserId(2);
    assert nobody == Failure(NotFound(UserKind, 2));
  }

  /** A pen is created in two categories; both are resolved from their ids. */
  method PenScenario()
  {
    var ana := User(1, "Ana", "ana@example.com");
    var office, school, gifts := Category(10, "Office", ""), Category(20, "School", ""), Category(30, "Gifts", "");
    var service := new ProductService(map[], map[1 := ana], map[10 := office, 20 := school, 30 := gifts], 1);

    assert Image(service.categories, {10, 20}) == {office, school};
    var created := service.Create(CreateProductDto(1, "Pen", 150, None, {10, 20}), 1000);
    assert created.Success?;
    var id := created.value.id;
    assert service.products[id].categories == {office, school};
    assert |created.value.categories| == 2;
    RepriceScenario(service, id);
  }

  /**
   * The pen is repriced and moved to a third category: the name survives
   * the update, the categories are replaced.
   */
  method RepriceScenario(service: ProductService, id: Id)
    requires service.Valid() && id in service.products && service.products[id].name == "Pen"
    requires 30 in service.categories && service.categories[30] == Category(30, "Gifts", "")
    modifies service
  {
    var updated := service.Update(id, UpdateProductDto(None, Some(200), None, {30}));
    assert updated.Success?;
    assert updated.value.name == "Pen" && updated.value.price == 200;
    assert service.products[id].categories == {Category(30, "Gifts", "")};
    assert CategoryIds(updated.value.categories) == {30};
  }

  /** An update naming a missing category changes nothing. */
  method MissingCategoryScenario(service: ProductService, id: Id)
    requires service.Valid() && id in service.products && 40 !in service.categories
    modifies service
  {
    var before := service.FindById(id);
    var missing := service.Update(id, UpdateProductDto(Some("Marker"), None, None, {40}));
    assert missing == Failure(NotFound(CategoryKind, 40));
    assert service.FindById(id) == before;
  }

  /** A product can be deleted once. */
  method DeleteTwiceScenario(service: ProductService, id: Id)
    requires service.Valid() && id in service.products
    modifies service
  {
    var gone := service.Delete(id);
    assert gone == Pass;
    var again := service.Delete(id);
    assert again == Fail(NotFound(ProductKind, id));
  }
}
