/** Projection of a stored product into its response shape. */
module Projection {
  import opened Wrappers
  import opened Domain
  import opened JavaString

  /** The nested owner summary: every field of the owner is kept. */
  function ToUserSummary(u: User): (s: UserSummary)
    ensures User(s.id, s.name, s.email) == u
  {
    UserSummary(u.id, u.name, u.email)
  }

  /** A category's summary: every field of the category is kept. */
  function ToCategorySummary(c: Category): (s: CategorySummary)
    ensures Category(s.id, s.name, s.description) == c
  {
    CategorySummary(c.id, c.name, c.description)
  }

  /** The summaries of a set of categories, as a set. */
  function SummariesOf(cs: set<Category>): set<CategorySummary>
  {
    set c | c in cs :: ToCategorySummary(c)
  }

  /** Sorted ascending by name under the comparator the source passes to sorted(). */
  predicate NameSorted(cs: seq<CategorySummary>)
  {
    forall i, j :: 0 <= i < j < |cs| ==> CompareTo(cs[i].name, cs[j].name) <= 0
  }

  /**
   * The order in which the model lists category summaries: by name under
   * Java's compareTo; summaries with equal names, which the source leaves in
   * no particular order, are further ordered by id and then by description.
   */
  predicate SummaryLe(a: CategorySummary, b: CategorySummary)
  {
    || CompareTo(a.name, b.name) < 0
    || (a.name == b.name && (a.id < b.id || (a.id == b.id && CompareTo(a.description, b.description) <= 0)))
  }

  predicate SummarySorted(cs: seq<CategorySummary>)
  {
    forall i, j :: 0 <= i < j < |cs| ==> SummaryLe(cs[i], cs[j])
  }

  /*
   * Listing a set in order is done here for category summaries and in the
   * Store module for product ids. The two orders differ (a lexicographic
   * order proved total by the lemmas below, and the integer order), and a
   * single version would have to take the order as a function-valued
   * parameter with its total-order laws as a precondition; the two short
   * concrete copies keep every contract first-order.
   */
  predicate IsLeastSummary(m: CategorySummary, s: set<CategorySummary>)
  {
    forall x :: x in s ==> SummaryLe(m, x)
  }

  lemma SummaryLeReflexive(a: CategorySummary)
    ensures SummaryLe(a, a)
  {
    CompareToZeroIffEqual(a.description, a.description);
  }

  lemma SummaryLeTotal(a: CategorySummary, b: CategorySummary)
    ensures SummaryLe(a, b) || SummaryLe(b, a)
  {
    CompareToAntisymmetric(a.name, b.name);
    CompareToZeroIffEqual(a.name, b.name);
    CompareToAntisymmetric(a.description, b.description);
  }

  lemma SummaryLeAntisymmetric(a: CategorySummary, b: CategorySummary)
    requires SummaryLe(a, b) && SummaryLe(b, a)
    ensures a == b
  {
    CompareToAntisymmetric(a.name, b.name);
    CompareToZeroIffEqual(a.name, b.name);
    CompareToAntisymmetric(a.description, b.description);
    CompareToZeroIffEqual(a.description, b.description);
  }

  /** A set has at most one least summary. */
  lemma LeastSummaryUnique(s: set<CategorySummary>)
    ensures forall m, m' :: m in s && m' in s && IsLeastSummary(m, s) && IsLeastSummary(m', s) ==> m == m'
  {
    forall m, m' | m in s && m' in s && IsLeastSummary(m, s) && IsLeastSummary(m', s) ensures m == m' {
      SummaryLeAntisymmetric(m, m');
    }
  }

  lemma SummaryLeTransitive(a: CategorySummary, b: CategorySummary, c: CategorySummary)
    requires SummaryLe(a, b) && SummaryLe(b, c)
    ensures SummaryLe(a, c)
  {
    if CompareTo(a.name, b.name) < 0 {
      if CompareTo(b.name, c.name) < 0 {
        CompareToStrictTransitive(a.name, b.name, c.name);
      }
    } else if CompareTo(b.name, c.name) >= 0 && a.id == b.id && b.id == c.id {
      CompareToTransitive(a.description, b.description, c.description);
    }
  }

  /** Every non-empty finite set of summaries has a least element. */
  lemma {:induction false} LeastSummaryExists(s: set<CategorySummary>)
    requires s != {}
    ensures exists m :: m in s && IsLeastSummary(m, s)
    decreases |s|
  {
    var x :| x in s;
    SummaryLeReflexive(x);
    if s == {x} {
      assert IsLeastSummary(x, s);
    } else {
      var rest := s - {x};
      LeastSummaryExists(rest);
      var m :| m in rest && IsLeastSummary(m, rest);
      SummaryLeTotal(x, m);
      if SummaryLe(x, m) {
        forall y | y in s ensures SummaryLe(x, y) {
          if y != x {
            SummaryLeTransitive(x, m, y);
          }
        }
        assert IsLeastSummary(x, s);
      } else {
        assert IsLeastSummary(m, s);
      }
    }
  }

  /** Putting the least element of a set in front of the sorted rest keeps the list sorted. */
  lemma PrependLeastSummary(m: CategorySummary, s: set<CategorySummary>, rest: seq<CategorySummary>)
    requires m in s && IsLeastSummary(m, s)
    requires multiset(rest) == multiset(s - {m})
    requires SummarySorted(rest)
    ensures multiset([m] + rest) == multiset(s)
    ensures SummarySorted([m] + rest)
  {
    var r := [m] + rest;
    forall j | 0 < j < |r| ensures SummaryLe(m, r[j]) {
      assert r[j] == rest[j - 1];
      assert rest[j - 1] in multiset(rest);
    }
    assert s == (s - {m}) + {m};
  }

  /**
   * The summaries of a set listed in ascending SummaryLe order: each element
   * exactly once.
   */
  function SortedSummaries(s: set<CategorySummary>): (r: seq<CategorySummary>)
    ensures multiset(r) == multiset(s)
    ensures SummarySorted(r)
    decreases |s|
  {
    if s == {} then []
    else
      LeastSummaryExists(s);
      LeastSummaryUnique(s);
      var m :| m in s && IsLeastSummary(m, s);
      var rest := SortedSummaries(s - {m});
      PrependLeastSummary(m, s, rest);
      [m] + rest
  }

  lemma SummaryLeSortedIsNameSorted(cs: seq<CategorySummary>)
    requires SummarySorted(cs)
    ensures NameSorted(cs)
  {
    forall i, j | 0 <= i < j < |cs| ensures CompareTo(cs[i].name, cs[j].name) <= 0 {
      CompareToZeroIffEqual(cs[i].name, cs[j].name);
    }
  }

  /** Distinct categories have distinct summaries, so no summary is lost. */
  lemma {:induction false} SummariesCardinality(cs: set<Category>)
    ensures |SummariesOf(cs)| == |cs|
    decreases |cs|
  {
    if cs != {} {
      var c :| c in cs;
      var rest := cs - {c};
      SummariesCardinality(rest);
      assert SummariesOf(cs) == SummariesOf(rest) + {ToCategorySummary(c)};
      assert ToCategorySummary(c) !in SummariesOf(rest);
    }
  }

  /**
   * The response for a stored product: scalars and timestamps copied, the
   * owner as a nested summary, and one summary per category, sorted
   * ascending by name.
   */
  function ToResponseDto(e: ProductEntity): (r: ProductResponse)
    ensures r.id == e.id && r.name == e.name && r.price == e.price && r.description == e.description
    ensures r.createdAt == e.createdAt && r.updatedAt == e.updatedAt
    ensures r.user == ToUserSummary(e.owner)
    ensures NameSorted(r.categories)
    ensures multiset(r.categories) == multiset(SummariesOf(e.categories))
    ensures |r.categories| == |e.categories|
  {
    var sorted := SortedSummaries(SummariesOf(e.categories));
    SummaryLeSortedIsNameSorted(sorted);
    SummariesCardinality(e.categories);
    assert |sorted| == |multiset(sorted)|;
    ProductResponse(
      e.id, e.name, e.price, e.description,
      ToUserSummary(e.owner),
      sorted,
      e.createdAt, e.updatedAt)
  }

  /** The first element of a sorted list is below every element of the list. */
  lemma SortedHeadIsLeast(a: seq<CategorySummary>, x: CategorySummary)
    requires SummarySorted(a) && x in a
    ensures SummaryLe(a[0], x)
  {
    var i :| 0 <= i < |a| && a[i] == x;
    if i == 0 {
      SummaryLeReflexive(x);
    }
  }

  lemma SortedTail(a: seq<CategorySummary>)
    requires SummarySorted(a) && a != []
    ensures SummarySorted(a[1..])
  {
    forall i, j | 0 <= i < j < |a[1..]| ensures SummaryLe(a[1..][i], a[1..][j]) {
      assert a[1..][i] == a[i + 1] && a[1..][j] == a[j + 1];
    }
  }

  /** Two sorted lists with the same elements start with the same element. */
  lemma SortedHeadsEqual(a: seq<CategorySummary>, b: seq<CategorySummary>)
    requires SummarySorted(a) && SummarySorted(b)
    requires multiset(a) == multiset(b) && a != [] && b != []
    ensures a[0] == b[0]
  {
    assert a[0] in multiset(b) && b[0] in multiset(a);
    SortedHeadIsLeast(b, a[0]);
    SortedHeadIsLeast(a, b[0]);
    SummaryLeAntisymmetric(a[0], b[0]);
  }

  /** Two lists sorted by SummaryLe with the same elements are the same list. */
  lemma {:induction false} SortedSummariesUnique(a: seq<CategorySummary>, b: seq<CategorySummary>)
    requires SummarySorted(a) && SummarySorted(b)
    requires multiset(a) == multiset(b)
    ensures a == b
    decreases |a|
  {
    assert |a| == |multiset(a)| == |multiset(b)| == |b|;
    if a != [] {
      SortedHeadsEqual(a, b);
      assert a == [a[0]] + a[1..] && b == [b[0]] + b[1..];
      assert multiset(a[1..]) == multiset(a) - multiset{a[0]};
      assert multiset(b[1..]) == multiset(b) - multiset{b[0]};
      SortedTail(a);
      SortedTail(b);
      SortedSummariesUnique(a[1..], b[1..]);
    }
  }

  /**
   * Categories named Zebra, Apple and Mango are listed as Apple, Mango,
   * Zebra, whatever order the set holds them in.
   */
  lemma ProjectionOrdersByName()
    ensures
      var zebra, apple, mango := Category(10, "Zebra", ""), Category(20, "Apple", ""), Category(30, "Mango", "");
      var e := ProductEntity(1, "Pen", 150, None, User(1, "Ana", "ana@example.com"), {zebra, apple, mango}, 0, 0);
      ToResponseDto(e).categories
        == [ToCategorySummary(apple), ToCategorySummary(mango), ToCategorySummary(zebra)]
  {
    var zebra, apple, mango := Category(10, "Zebra", ""), Category(20, "Apple", ""), Category(30, "Mango", "");
    var e := ProductEntity(1, "Pen", 150, None, User(1, "Ana", "ana@example.com"), {zebra, apple, mango}, 0, 0);
    var expected := [ToCategorySummary(apple), ToCategorySummary(mango), ToCategorySummary(zebra)];
    assert CompareTo("Apple", "Mango") < 0;
    assert CompareTo("Mango", "Zebra") < 0;
    CompareToStrictTransitive("Apple", "Mango", "Zebra");
    assert SummariesOf(e.categories) == {expected[0], expected[1], expected[2]};
    assert multiset(SummariesOf(e.categories)) == multiset(expected);
    assert SummarySorted(expected);
    SortedSummariesUnique(ToResponseDto(e).categories, expected);
  }
}
