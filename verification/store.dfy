/**
 * The three repositories as maps keyed by id, the consistency they keep, and
 * the read-side helpers the service's list lookups are built from.
 */
module Store {
  import opened Domain
  import opened Projection

  /** Every reference a stored product holds resolves to the stored record. */
  ghost predicate RefersToStored(e: ProductEntity, users: map<Id, User>, categories: map<Id, Category>)
  {
    && e.owner.id in users && users[e.owner.id] == e.owner
    && forall c :: c in e.categories ==> c.id in categories && categories[c.id] == c
  }

  /**
   * The repositories' state: each map is keyed by its records' ids, every
   * product id is below the next id storage will hand out, and no product
   * has a dangling owner or category.
   */
  ghost predicate Consistent(products: map<Id, ProductEntity>, users: map<Id, User>,
                             categories: map<Id, Category>, nextId: Id)
  {
    && (forall k :: k in users ==> users[k].id == k)
    && (forall k :: k in categories ==> categories[k].id == k)
    && (forall k :: k in products ==> k < nextId && products[k].id == k && RefersToStored(products[k], users, categories))
  }

  /** Storing a product under its own id keeps the repositories consistent when its references resolve. */
  lemma StorePreservesConsistent(products: map<Id, ProductEntity>, users: map<Id, User>,
                                 categories: map<Id, Category>, nextId: Id, e: ProductEntity)
    requires Consistent(products, users, categories, nextId)
    requires e.id < nextId && RefersToStored(e, users, categories)
    ensures Consistent(products[e.id := e], users, categories, nextId)
  {
  }

  /** The stored categories that the given ids name. */
  function Image(categories: map<Id, Category>, ids: set<Id>): set<Category>
  {
    set k | k in ids && k in categories :: categories[k]
  }

  /** Resolved categories are stored records. */
  lemma ImageStored(categories: map<Id, Category>, ids: set<Id>)
    requires forall k :: k in categories ==> categories[k].id == k
    ensures forall c :: c in Image(categories, ids) ==> c.id in categories && categories[c.id] == c
  {
  }

  /** Whether a product is associated with the category of the given id. */
  predicate HasCategory(e: ProductEntity, categoryId: Id)
  {
    exists c :: c in e.categories && c.id == categoryId
  }

  /** The ids of the categories listed in a response. */
  function CategoryIds(cs: seq<CategorySummary>): set<Id>
  {
    set c | c in cs :: c.id
  }

  /** The ids of a list of responses. */
  function ResponseIds(rs: seq<ProductResponse>): set<Id>
  {
    set p | p in rs :: p.id
  }

  predicate AscendingIds(rs: seq<ProductResponse>)
  {
    forall i, j :: 0 <= i < j < |rs| ==> rs[i].id < rs[j].id
  }

  /** Under keyed categories, resolving ids that all exist gives back categories with exactly those ids. */
  lemma ImageIds(categories: map<Id, Category>, ids: set<Id>)
    requires forall k :: k in categories ==> categories[k].id == k
    requires ids <= categories.Keys
    ensures (set c | c in Image(categories, ids) :: c.id) == ids
  {
    forall k | k in ids ensures k in (set c | c in Image(categories, ids) :: c.id) {
      assert categories[k] in Image(categories, ids);
    }
  }

  /** A response lists exactly the ids of the product's categories. */
  lemma ResponseCategoryIds(e: ProductEntity)
    ensures CategoryIds(ToResponseDto(e).categories) == (set c | c in e.categories :: c.id)
  {
    var r := ToResponseDto(e);
    forall c | c in e.categories ensures c.id in CategoryIds(r.categories) {
      assert ToCategorySummary(c) in SummariesOf(e.categories);
      assert ToCategorySummary(c) in multiset(r.categories);
    }
    forall s | s in r.categories ensures s.id in (set c | c in e.categories :: c.id) {
      assert s in multiset(r.categories);
      assert s in SummariesOf(e.categories);
    }
  }

  // The same least-element listing as SortedSummaries in Projection, over
  // the integer order; see the note there for why there are two copies.
  predicate IsLeastId(m: Id, ks: set<Id>)
  {
    forall k :: k in ks ==> m <= k
  }

  /** Every non-empty finite set of ids has a least element. */
  lemma {:induction false} LeastIdExists(ks: set<Id>)
    requires ks != {}
    ensures exists m :: m in ks && IsLeastId(m, ks)
    decreases |ks|
  {
    // Supplies the witness the pick below needs: a non-empty set has an element.
    if forall y :: y !in ks {
      assert false;
    }
    var x :| x in ks;
    if ks == {x} {
      assert IsLeastId(x, ks);
    } else {
      var rest := ks - {x};
      LeastIdExists(rest);
      var m :| m in rest && IsLeastId(m, rest);
      if x <= m {
        forall k | k in ks ensures x <= k {
          if k != x { assert k in rest; }
        }
        assert IsLeastId(x, ks);
      } else {
        forall k | k in ks ensures m <= k {
          if k != x { assert k in rest; }
        }
        assert IsLeastId(m, ks);
      }
    }
  }

  /** The ids of a set in strictly ascending order. */
  function SortedIds(ks: set<Id>): (r: seq<Id>)
    ensures forall i, j :: 0 <= i < j < |r| ==> r[i] < r[j]
    ensures forall k :: k in r <==> k in ks
    decreases |ks|
  {
    if ks == {} then []
    else
      LeastIdExists(ks);
      var m :| m in ks && IsLeastId(m, ks);
      [m] + SortedIds(ks - {m})
  }

  /**
   * The responses for the products with the given ids, one per id, in
   * ascending id order.
   */
  function Listing(products: map<Id, ProductEntity>, ks: set<Id>): (r: seq<ProductResponse>)
    requires forall k :: k in ks ==> k in products && products[k].id == k
    ensures ResponseIds(r) == ks
    ensures AscendingIds(r)
    ensures forall p :: p in r ==> p.id in products && p == ToResponseDto(products[p.id])
  {
    var ids := SortedIds(ks);
    var r := seq(|ids|, i requires 0 <= i < |ids| => ToResponseDto(products[ids[i]]));
    assert forall i :: 0 <= i < |r| ==> r[i].id == ids[i];
    assert ResponseIds(r) == ks by {
      forall k | k in ks ensures k in ResponseIds(r) {
        var i :| 0 <= i < |ids| && ids[i] == k;
        assert r[i] in r;
      }
    }
    r
  }
}
