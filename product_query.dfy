/**
 * The `where` objects the product routes hand to the product table, what a
 * row must satisfy to match one, and how the filter and search routes build
 * theirs from the query string.
 */
module ProductQuery {
  import opened Wrappers
  import opened Js
  import opened ProductModel

  /** A `{ gte, lte }` condition on a number column. */
  datatype Bounds = Bounds(gte: Option<real>, lte: Option<real>)

  const Unbounded: Bounds := Bounds(None, None)

  /**
   * A `where` object: always scoped to an owner, with optional conditions on
   * the category, the price, the rating and, for search, a text that the name
   * or the description must contain (`OR` of two case-insensitive `contains`).
   */
  datatype Where = Where(
    userId: string,
    category: Option<string>,
    price: Bounds,
    rating: Bounds,
    text: Option<string>)

  predicate WithinBounds(x: real, b: Bounds)
  {
    (b.gte.Some? ==> b.gte.value <= x) && (b.lte.Some? ==> x <= b.lte.value)
  }

  /** A nullable column: with any bound given, a row without a value does not match. */
  predicate OptionalWithinBounds(x: Option<real>, b: Bounds)
  {
    b == Unbounded || (x.Some? && WithinBounds(x.value, b))
  }

  /** `contains` with `mode: 'insensitive'`. */
  predicate ContainsInsensitive(hay: string, needle: string)
  {
    Includes(Lower(hay), Lower(needle))
  }

  /** The table's reading of a `where` object: every condition given must hold. */
  predicate Matches(w: Where, p: Product)
  {
    && p.userId == w.userId
    && (w.category.Some? ==> p.category == w.category.value)
    && WithinBounds(p.price, w.price)
    && OptionalWithinBounds(p.rating, w.rating)
    && (w.text.Some? ==> ContainsInsensitive(p.name, w.text.value) || ContainsInsensitive(p.description, w.text.value))
  }

  /** `{ userId }`: the owner scope alone, as the list route uses it. */
  function OwnerWhere(caller: string): (w: Where)
    ensures forall p :: Matches(w, p) <==> p.userId == caller
  {
    Where(caller, None, Unbounded, Unbounded, None)
  }

  /**
   * The query string of `GET /filter`. A number parameter is None when it is
   * missing or empty, and otherwise holds what `parseFloat` makes of it.
   */
  datatype FilterQuery = FilterQuery(
    category: Option<string>,
    minPrice: Option<real>,
    maxPrice: Option<real>,
    minRating: Option<real>)

  /**
   * The products the filter route promises: the caller's, in the given
   * category when one is given, with `minPrice <= price <= maxPrice` for the
   * bounds given (both inclusive), and rated at least `minRating` when that is
   * given.
   */
  predicate InFilter(caller: string, q: FilterQuery, p: Product)
  {
    && p.userId == caller
    && (Truthy(q.category) ==> p.category == q.category.value)
    && (q.minPrice.Some? ==> q.minPrice.value <= p.price)
    && (q.maxPrice.Some? ==> p.price <= q.maxPrice.value)
    && (q.minRating.Some? ==> p.rating.Some? && q.minRating.value <= p.rating.value)
  }

  /**
   * The filter route's `where`, built one condition at a time; each price
   * bound is spread into what is already there, so the two compose.
   */
  method BuildFilterWhere(caller: string, q: FilterQuery) returns (w: Where)
    ensures forall p :: Matches(w, p) <==> InFilter(caller, q, p)
  {
    w := Where(caller, None, Unbounded, Unbounded, None);
    if Truthy(q.category) {
      w := w.(category := q.category);
    }
    if q.minPrice.Some? {
      w := w.(price := w.price.(gte := q.minPrice));
    }
    if q.maxPrice.Some? {
      w := w.(price := w.price.(lte := q.maxPrice));
    }
    if q.minRating.Some? {
      w := w.(rating := w.rating.(gte := q.minRating));
    }
  }

  /** Both bounds given: exactly the caller's products priced between them, ends included. */
  lemma PriceRangeInclusive(caller: string, lo: real, hi: real, p: Product)
    ensures InFilter(caller, FilterQuery(None, Some(lo), Some(hi), None), p)
        <==> p.userId == caller && lo <= p.price <= hi
  {
  }

  /** The products the search route promises: the caller's whose name or description contains `q`, ignoring case. */
  predicate InSearch(caller: string, q: string, p: Product)
  {
    p.userId == caller && (ContainsInsensitive(p.name, q) || ContainsInsensitive(p.description, q))
  }

  /** The search route's `where`: owner scope and the `OR` of the two text conditions. */
  function SearchWhere(caller: string, q: string): (w: Where)
    ensures forall p :: Matches(w, p) <==> InSearch(caller, q, p)
  {
    Where(caller, None, Unbounded, Unbounded, Some(q))
  }

  /** Search ignores case: `abc` finds a product named `ABCxyz`. */
  lemma SearchIgnoresCase(caller: string, p: Product)
    requires p.userId == caller && p.name == "ABCxyz"
    ensures InSearch(caller, "abc", p)
  {
    assert Lower(p.name) == "abcxyz";
    assert Lower("abc") == "abc";
    assert OccursAt(Lower(p.name), Lower("abc"), 0);
  }

  /** Search needs the text in the name or the description: a product with it in neither is not found. */
  lemma SearchNeedsText(caller: string, q: string, p: Product)
    requires !ContainsInsensitive(p.name, q) && !ContainsInsensitive(p.description, q)
    ensures !InSearch(caller, q, p)
  {
  }

  /** Every `where` the routes build keeps other users' products out. */
  lemma WhereIsOwnerScoped(w: Where, p: Product)
    requires Matches(w, p)
    ensures p.userId == w.userId
  {
  }
}
