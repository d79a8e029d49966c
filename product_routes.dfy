/**
 * The product table and the route handlers that read and change it.
 *
 * Every handler works on the caller's own rows only: the caller is the
 * `userId` the token guard put on the request. A row that does not exist
 * and a row owned by someone else get the same 404. The store may throw
 * (`storeFails`), which every handler answers with 500 once the request
 * itself has been accepted.
 */
module ProductRoutes {
  import opened Wrappers
  import opened Js
  import opened ProductModel
  import opened ProductQuery

  const SearchQueryRequiredMessage: string := "Search query is required"

  /** `orderBy: { createdAt: 'desc' }`: newer rows first. */
  ghost predicate NewestFirst(r: seq<Product>)
  {
    forall i, j :: 0 <= i < j < |r| ==> r[i].createdAt >= r[j].createdAt
  }

  /** No row appears twice. */
  ghost predicate DistinctIds(r: seq<Product>)
  {
    forall i, j :: 0 <= i < j < |r| ==> r[i].id != r[j].id
  }

  /** Puts `p` into a newest-first list, keeping it newest first. */
  function InsertNewestFirst(r: seq<Product>, p: Product): (r': seq<Product>)
    requires NewestFirst(r) && DistinctIds(r)
    requires forall x :: x in r ==> x.id != p.id
    ensures |r'| == |r| + 1
    ensures forall x :: x in r' <==> x in r || x == p
    ensures NewestFirst(r') && DistinctIds(r')
    decreases |r|
  {
    if r == [] || p.createdAt >= r[0].createdAt then
      HeadIsNewest(r);
      PrependKeepsOrder(p, r);
      [p] + r
    else
      HeadIsNewest(r);
      var rest := InsertNewestFirst(r[1..], p);
      PrependKeepsOrder(r[0], rest);
      [r[0]] + rest
  }

  /** The head of a newest-first list of distinct rows is at least as new as, and distinct from, every later row; the tail keeps both properties. */
  lemma HeadIsNewest(r: seq<Product>)
    requires NewestFirst(r) && DistinctIds(r)
    ensures r != [] ==> forall x :: x in r ==> r[0].createdAt >= x.createdAt
    ensures r != [] ==> forall x :: x in r[1..] ==> r[0].id != x.id
    ensures r != [] ==> NewestFirst(r[1..]) && DistinctIds(r[1..])
  {
    if r != [] {
      forall x | x in r ensures r[0].createdAt >= x.createdAt {
        var j :| 0 <= j < |r| && r[j] == x;
      }
      forall x | x in r[1..] ensures r[0].id != x.id {
        var j :| 0 <= j < |r[1..]| && r[1..][j] == x;
        assert r[j + 1] == x;
      }
    }
  }

  /** Putting a row in front keeps the list newest first and free of repeats when the row is newest and new. */
  lemma PrependKeepsOrder(q: Product, rest: seq<Product>)
    requires NewestFirst(rest) && DistinctIds(rest)
    requires forall x :: x in rest ==> q.createdAt >= x.createdAt && q.id != x.id
    ensures NewestFirst([q] + rest) && DistinctIds([q] + rest)
  {
    assert forall k :: 0 <= k < |rest| ==> rest[k] in rest;
  }

  /** `findUnique({ where: { id, userId } })`: the row with that id, if the caller owns it. */
  function FindOwned(products: map<string, Product>, id: string, caller: string): (found: Option<Product>)
    ensures found.Some? <==> id in products && products[id].userId == caller
    ensures found.Some? ==> found.value == products[id]
  {
    if id in products && products[id].userId == caller then Some(products[id]) else None
  }

  class ProductStore {
    var products: map<string, Product>

    /** Every row is filed under its own id. */
    ghost predicate Valid()
      reads this
    {
      forall id :: id in products ==> products[id].id == id
    }

    constructor ()
      ensures Valid() && products == map[]
    {
      products := map[];
    }

    /** `findMany({ where, orderBy: { createdAt: 'desc' } })`: every matching row once, newest first. */
    method FindMany(w: Where) returns (r: seq<Product>)
      requires Valid()
      ensures forall p :: p in r <==> p in products.Values && Matches(w, p)
      ensures NewestFirst(r) && DistinctIds(r)
    {
      r := [];
      var pending := products.Keys;
      while pending != {}
        invariant pending <= products.Keys
        invariant forall p :: p in r <==> p.id in products && p.id !in pending && products[p.id] == p && Matches(w, p)
        invariant NewestFirst(r) && DistinctIds(r)
        decreases pending
      {
        var id :| id in pending;
        var p := products[id];
        if Matches(w, p) {
          r := InsertNewestFirst(r, p);
        }
        pending := pending - {id};
      }
      forall p | p in products.Values
        ensures p.id in products && products[p.id] == p
      {
        var id :| id in products && products[id] == p;
      }
    }

    /** `GET /`: all of the caller's products, newest first. */
    method List(caller: string, storeFails: bool) returns (reply: Reply)
      requires Valid()
      ensures storeFails ==> reply == ErrorReply(500, ServerErrorMessage)
      ensures !storeFails ==>
        && reply.ListReply? && reply.status == 200
        && (forall p :: p in reply.products <==> p in products.Values && p.userId == caller)
        && NewestFirst(reply.products) && DistinctIds(reply.products)
    {
      if storeFails {
        return ErrorReply(500, ServerErrorMessage);
      }
      var found := FindMany(OwnerWhere(caller));
      reply := ListReply(200, found);
    }

    /** `GET /:id`: the product, if it exists and the caller owns it; 404 otherwise. */
    method Get(caller: string, id: string, storeFails: bool) returns (reply: Reply)
      ensures storeFails ==> reply == ErrorReply(500, ServerErrorMessage)
      ensures !storeFails && id in products && products[id].userId == caller ==>
        reply == ProductReply(200, products[id])
      ensures !storeFails && !(id in products && products[id].userId == caller) ==>
        reply == ErrorReply(404, NotFoundMessage)
    {
      if storeFails {
        return ErrorReply(500, ServerErrorMessage);
      }
      var product := FindOwned(products, id, caller);
      if product.None? {
        return ErrorReply(404, NotFoundMessage);
      }
      reply := ProductReply(200, product.value);
    }

    /**
     * `POST /`: validate the body, then store it as a new row owned by the
     * caller, whatever owner the body names. `freshId` is the id the table
     * generates; an id already in use makes the insert throw.
     */
    method Create(caller: string, body: ProductBody, storeFails: bool, freshId: string, now: int)
      returns (reply: Reply)
      requires Valid()
      modifies this
      ensures Valid()
      ensures ParseCreate(body).None? ==>
        reply == ErrorReply(400, InvalidInputMessage) && products == old(products)
      ensures ParseCreate(body).Some? && (storeFails || freshId in old(products)) ==>
        reply == ErrorReply(500, ServerErrorMessage) && products == old(products)
      ensures ParseCreate(body).Some? && !storeFails && freshId !in old(products) ==>
        var p := NewProduct(freshId, ParseCreate(body).value, caller, now);
        && reply == ProductReply(201, p)
        && products == old(products)[freshId := p]
        && products.Keys == old(products).Keys + {freshId}
        && |products| == |old(products)| + 1
        && p.userId == caller
    {
      var validatedData := ParseCreate(body);
      if validatedData.None? {
        return ErrorReply(400, InvalidInputMessage);
      }
      if storeFails || freshId in products {
        return ErrorReply(500, ServerErrorMessage);
      }
      var product := NewProduct(freshId, validatedData.value, caller, now);
      products := products[freshId := product];
      reply := ProductReply(201, product);
    }

    /**
     * `PUT /:id`: validate the partial body first, then check ownership, then
     * change the present properties of that one row.
     */
    method Update(caller: string, id: string, body: ProductBody, storeFails: bool, now: int)
      returns (reply: Reply)
      requires Valid()
      modifies this
      ensures Valid()
      ensures ParsePatch(body).None? ==>
        reply == ErrorReply(400, InvalidInputMessage) && products == old(products)
      ensures ParsePatch(body).Some? && storeFails ==>
        reply == ErrorReply(500, ServerErrorMessage) && products == old(products)
      ensures ParsePatch(body).Some? && !storeFails && FindOwned(old(products), id, caller).None? ==>
        reply == ErrorReply(404, NotFoundMessage) && products == old(products)
      ensures ParsePatch(body).Some? && !storeFails && FindOwned(old(products), id, caller).Some? ==>
        var q := ApplyPatch(old(products)[id], ParsePatch(body).value, now);
        && reply == ProductReply(200, q)
        && products == old(products)[id := q]
        && products.Keys == old(products).Keys
    {
      var validatedData := ParsePatch(body);
      if validatedData.None? {
        return ErrorReply(400, InvalidInputMessage);
      }
      if storeFails {
        return ErrorReply(500, ServerErrorMessage);
      }
      var existingProduct := FindOwned(products, id, caller);
      if existingProduct.None? {
        return ErrorReply(404, NotFoundMessage);
      }
      var product := ApplyPatch(products[id], validatedData.value, now);
      products := products[id := product];
      reply := ProductReply(200, product);
    }

    /** `DELETE /:id`: check ownership, then remove that one row and answer 204. */
    method Delete(caller: string, id: string, storeFails: bool) returns (reply: Reply)
      requires Valid()
      modifies this
      ensures Valid()
      ensures storeFails ==> reply == ErrorReply(500, ServerErrorMessage) && products == old(products)
      ensures !storeFails && FindOwned(old(products), id, caller).None? ==>
        reply == ErrorReply(404, NotFoundMessage) && products == old(products)
      ensures !storeFails && FindOwned(old(products), id, caller).Some? ==>
        && reply == NoContent(204)
        && products == old(products) - {id}
        && |products| == |old(products)| - 1
    {
      if storeFails {
        return ErrorReply(500, ServerErrorMessage);
      }
      var existingProduct := FindOwned(products, id, caller);
      if existingProduct.None? {
        return ErrorReply(404, NotFoundMessage);
      }
      products := products - {id};
      reply := NoContent(204);
    }

    /** `GET /filter`: the caller's products that meet every condition given, newest first. */
    method Filter(caller: string, query: FilterQuery, storeFails: bool) returns (reply: Reply)
      requires Valid()
      ensures storeFails ==> reply == ErrorReply(500, ServerErrorMessage)
      ensures !storeFails ==>
        && reply.ListReply? && reply.status == 200
        && (forall p :: p in reply.products <==> p in products.Values && InFilter(caller, query, p))
        && NewestFirst(reply.products) && DistinctIds(reply.products)
    {
      if storeFails {
        return ErrorReply(500, ServerErrorMessage);
      }
      var where := BuildFilterWhere(caller, query);
      var found := FindMany(where);
      reply := ListReply(200, found);
    }

    /** `GET /search`: 400 without a query; else the caller's products whose name or description contains it. */
    method Search(caller: string, q: Option<string>, storeFails: bool) returns (reply: Reply)
      requires Valid()
      ensures !Truthy(q) ==> reply == ErrorReply(400, SearchQueryRequiredMessage)
      ensures Truthy(q) && storeFails ==> reply == ErrorReply(500, ServerErrorMessage)
      ensures Truthy(q) && !storeFails ==>
        && reply.ListReply? && reply.status == 200
        && (forall p :: p in reply.products <==> p in products.Values && InSearch(caller, q.value, p))
        && NewestFirst(reply.products) && DistinctIds(reply.products)
    {
      if !Truthy(q) {
        return ErrorReply(400, SearchQueryRequiredMessage);
      }
      if storeFails {
        return ErrorReply(500, ServerErrorMessage);
      }
      var found := FindMany(SearchWhere(caller, q.value));
      reply := ListReply(200, found);
    }
  }

  /**
   * Two users on one table, whatever it already holds: what `owner` creates,
   * `other` can neither read, change nor delete (each answered 404), and does
   * not see in a list, a filter or a search; `other`'s list is exactly what
   * it was before, and the table gains the one new row and nothing else.
   */
  method OwnerIsolation(store: ProductStore, owner: string, other: string, body: ProductBody, patch: ProductBody,
                        freshId: string, now: int, query: FilterQuery, text: string)
    returns (created: Reply, read: Reply, changed: Reply, deleted: Reply,
             listed: Reply, filtered: Reply, searched: Reply)
    requires store.Valid()
    requires freshId !in store.products
    requires owner != other
    requires ParseCreate(body).Some? && ParsePatch(patch).Some?
    requires text != ""
    modifies store
    ensures store.Valid()
    ensures created == ProductReply(201, NewProduct(freshId, ParseCreate(body).value, owner, now))
    ensures store.products == old(store.products)[freshId := created.product]
    ensures read == changed == deleted == ErrorReply(404, NotFoundMessage)
    ensures listed.ListReply? && filtered.ListReply? && searched.ListReply?
    ensures created.product !in listed.products
    ensures created.product !in filtered.products
    ensures created.product !in searched.products
    ensures forall p :: p in listed.products <==> p in old(store.products).Values && p.userId == other
  {
    ghost var before := store.products;
    created := store.Create(owner, body, false, freshId, now);
    read := store.Get(other, freshId, false);
    changed := store.Update(other, freshId, patch, false, now);
    deleted := store.Delete(other, freshId, false);
    listed := store.List(other, false);
    filtered := store.Filter(other, query, false);
    searched := store.Search(other, Some(text), false);
    assert forall p :: p in store.products.Values <==> p in before.Values || p == created.product by {
      forall p ensures p in store.products.Values <==> p in before.Values || p == created.product {
        if p in before.Values {
          var k :| k in before && before[k] == p;
          assert k != freshId && store.products[k] == p;
        }
        if p in store.products.Values {
          var k :| k in store.products && store.products[k] == p;
          if k != freshId {
            assert before[k] == p;
          }
        }
      }
    }
  }
}
