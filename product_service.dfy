/**
 * The browser's product service: the header that carries the session token,
 * and the requests it sends for each product operation (method, path below
 * the `/products` mount point, headers and payload). The HTTP transport is
 * not modelled; what the requests do on arrival is stated against the
 * server's router, schemas, upload middleware and token guard.
 */
module ProductService {
  import opened Wrappers
  import opened Js
  import opened Tokens
  import opened ProductModel
  import opened ProductQuery
  import opened ProductUpload
  import opened ProductRoutes
  import R = ProductRouter
  import AuthMiddleware
  import AuthService

  /** The base URL used when `REACT_APP_API_URL` is unset or empty. */
  const DefaultApiUrl: string := "http://localhost:3001/api"

  /**
   * With `REACT_APP_API_URL` set, both services talk to the same server;
   * without it, they fall back to different ports.
   */
  lemma ApiUrlsAgreeOnlyWhenSet(env: Option<string>)
    ensures OrElse(env, DefaultApiUrl) == OrElse(env, AuthService.DefaultApiUrl) <==> Truthy(env)
  {
    if !Truthy(env) {
      assert DefaultApiUrl[17] == '3' && AuthService.DefaultApiUrl[17] == '5';
    }
  }

  const AuthorizationHeader: string := "Authorization"

  /** `getAuthHeader()`: `Authorization: Bearer <token>` when a token is stored, no header otherwise. */
  function AuthHeader(token: Option<string>): (headers: map<string, string>)
    ensures AuthorizationHeader in headers <==> Truthy(token)
    ensures Truthy(token) ==> headers[AuthorizationHeader] == "Bearer " + token.value
    ensures headers.Keys <= {AuthorizationHeader}
  {
    if Truthy(token) then map[AuthorizationHeader := "Bearer " + token.value] else map[]
  }

  /** The `Authorization` header as the server reads it from a request. */
  function AuthorizationOf(headers: map<string, string>): Option<string>
  {
    if AuthorizationHeader in headers then Some(headers[AuthorizationHeader]) else None
  }

  /** The guard reads back exactly the stored token, provided the token has no space. */
  lemma AuthHeaderRoundTrip(t: string)
    requires t != "" && ' ' !in t
    ensures AuthorizationOf(AuthHeader(Some(t))) == Some("Bearer " + t)
    ensures AuthMiddleware.BearerToken("Bearer " + t) == Some(t)
  {
    AuthMiddleware.BearerTokenOfScheme("Bearer", t);
    assert "Bearer" + " " + t == "Bearer " + t;
  }

  /** A request carrying a token the verifier accepts passes the guard with that token's claims. */
  lemma AuthHeaderAccepted(t: string, jwt: Jwt, secretEnv: Option<string>, now: int, claims: Claims)
    requires t != "" && ' ' !in t
    requires jwt.verify(t, SigningSecret(secretEnv), now) == Some(claims)
    ensures AuthMiddleware.Decide(AuthorizationOf(AuthHeader(Some(t))), jwt, secretEnv, now)
         == AuthMiddleware.Proceed(claims)
  {
    AuthHeaderRoundTrip(t);
  }

  /** Without a stored token the request has no header, and the guard answers "token is required". */
  lemma NoTokenNoHeader(token: Option<string>, jwt: Jwt, secretEnv: Option<string>, now: int)
    requires !Truthy(token)
    ensures AuthorizationOf(AuthHeader(token)) == None
    ensures AuthMiddleware.Decide(AuthorizationOf(AuthHeader(token)), jwt, secretEnv, now)
         == AuthMiddleware.Reject(401, AuthMiddleware.MissingTokenMessage)
  {
  }

  /** A file picked in the browser. */
  datatype FileInput = FileInput(name: string, mimetype: string, size: nat)

  /** What a request carries besides its headers. */
  datatype Payload =
    | NoBody
    | Json(body: ProductBody)                 // a JSON body
    | FilterParams(query: FilterQuery)        // `params: filters`
    | SearchParams(q: string)                 // `params: { q }`
    | Form(field: string, file: FileInput)    // a multipart form with one file

  datatype Request = Request(verb: R.Verb, path: string, headers: map<string, string>, payload: Payload)

  /** `CreateProductInput`. */
  datatype CreateInput = CreateInput(
    name: string,
    description: string,
    category: string,
    price: real,
    rating: Option<real>,
    imageUrl: Option<string>)

  /** `UpdateProductInput`: an id and any subset of the create properties. */
  datatype UpdateInput = UpdateInput(
    id: string,
    name: Option<string>,
    description: Option<string>,
    category: Option<string>,
    price: Option<real>,
    rating: Option<real>,
    imageUrl: Option<string>)

  /** A property as JSON serialisation sends it: an undefined property is left out. */
  function FieldOf<T>(o: Option<T>): Field<T>
  {
    if o.Some? then Present(o.value) else Absent
  }

  /** The JSON body of `createProduct`: the input as it is. */
  function CreateBody(input: CreateInput): ProductBody
  {
    ProductBody(Present(input.name), Present(input.description), Present(input.category), Present(input.price),
                FieldOf(input.rating), FieldOf(input.imageUrl), Absent)
  }

  /** `const { id, ...data } = product`: the JSON body of `updateProduct`, everything but the id. */
  function UpdateBody(input: UpdateInput): ProductBody
  {
    ProductBody(FieldOf(input.name), FieldOf(input.description), FieldOf(input.category), FieldOf(input.price),
                FieldOf(input.rating), FieldOf(input.imageUrl), Absent)
  }

  function GetAllRequest(token: Option<string>): Request
  {
    Request(R.Get, "/", AuthHeader(token), NoBody)
  }

  function GetByIdRequest(token: Option<string>, id: string): Request
  {
    Request(R.Get, "/" + id, AuthHeader(token), NoBody)
  }

  function CreateRequest(token: Option<string>, input: CreateInput): Request
  {
    Request(R.Post, "/", AuthHeader(token), Json(CreateBody(input)))
  }

  /** The id goes in the path; the body carries the other properties. */
  function UpdateRequest(token: Option<string>, input: UpdateInput): Request
  {
    Request(R.Put, "/" + input.id, AuthHeader(token), Json(UpdateBody(input)))
  }

  function DeleteRequest(token: Option<string>, id: string): Request
  {
    Request(R.Delete, "/" + id, AuthHeader(token), NoBody)
  }

  function FilterRequest(token: Option<string>, filters: FilterQuery): Request
  {
    Request(R.Get, "/" + R.FilterSegment, AuthHeader(token), FilterParams(filters))
  }

  function SearchRequest(token: Option<string>, q: string): Request
  {
    Request(R.Get, "/" + R.SearchSegment, AuthHeader(token), SearchParams(q))
  }

  /** The file goes in the form field `image`, next to the token header and a multipart content type. */
  function UploadRequest(token: Option<string>, file: FileInput): Request
  {
    Request(R.Post, "/" + R.UploadSegment, AuthHeader(token)["Content-Type" := "multipart/form-data"], Form(ImageField, file))
  }

  /** The server's create schema accepts the client's body exactly when the input meets its rules, and keeps every property. */
  lemma CreateBodyRoundTrip(input: CreateInput)
    ensures ParseCreate(CreateBody(input)).Some? <==>
      && |input.name| >= 1 && |input.description| >= 1 && |input.category| >= 1
      && input.price > 0.0
      && (input.rating.Some? ==> 0.0 <= input.rating.value <= 5.0)
    ensures ParseCreate(CreateBody(input)).Some? ==>
      ParseCreate(CreateBody(input)).value
        == ProductData(input.name, input.description, input.category, input.price, input.rating, input.imageUrl)
  {
  }

  /** The server's update schema reads the client's body back as exactly the properties the input sets. */
  lemma UpdateBodyRoundTrip(input: UpdateInput)
    ensures ParsePatch(UpdateBody(input)).Some? <==>
      && (input.name.Some? ==> |input.name.value| >= 1)
      && (input.description.Some? ==> |input.description.value| >= 1)
      && (input.category.Some? ==> |input.category.value| >= 1)
      && (input.price.Some? ==> input.price.value > 0.0)
      && (input.rating.Some? ==> 0.0 <= input.rating.value <= 5.0)
    ensures ParsePatch(UpdateBody(input)).Some? ==>
      ParsePatch(UpdateBody(input)).value
        == ProductPatch(input.name, input.description, input.category, input.price, input.rating, input.imageUrl)
  {
  }

  /**
   * Each request reaches the handler it is meant for, with the id in the
   * path read back as `id`, in the order the routes are registered; the
   * filter and search requests need the corrected order.
   */
  lemma RequestsReachTheirHandlers(token: Option<string>, id: string, input: CreateInput, update: UpdateInput,
                                   filters: FilterQuery, q: string, file: FileInput)
    requires id != [] && '/' !in id && !EqualIgnoringCase(id, R.FilterSegment) && !EqualIgnoringCase(id, R.SearchSegment)
    requires update.id == id
    ensures var r := GetAllRequest(token); R.Dispatch(R.RegisteredRoutes, r.verb, r.path) == Some(R.Match(R.ListProducts, None))
    ensures var r := GetByIdRequest(token, id); R.Dispatch(R.RegisteredRoutes, r.verb, r.path) == Some(R.Match(R.GetProduct, Some(id)))
    ensures var r := CreateRequest(token, input); R.Dispatch(R.RegisteredRoutes, r.verb, r.path) == Some(R.Match(R.CreateProduct, None))
    ensures var r := UpdateRequest(token, update); R.Dispatch(R.RegisteredRoutes, r.verb, r.path) == Some(R.Match(R.UpdateProduct, Some(id)))
    ensures var r := DeleteRequest(token, id); R.Dispatch(R.RegisteredRoutes, r.verb, r.path) == Some(R.Match(R.DeleteProduct, Some(id)))
    ensures var r := UploadRequest(token, file); R.Dispatch(R.RegisteredRoutes, r.verb, r.path) == Some(R.Match(R.UploadImage, None))
    ensures var r := FilterRequest(token, filters); R.Dispatch(R.CorrectedRoutes, r.verb, r.path) == Some(R.Match(R.FilterProducts, None))
    ensures var r := SearchRequest(token, q); R.Dispatch(R.CorrectedRoutes, r.verb, r.path) == Some(R.Match(R.SearchProducts, None))
  {
    CollectionRequestsReached(token, input);
    IdRequestsReached(token, id, update);
    UploadRequestReached(token, file);
    FilterAndSearchRequestsReached(token, filters, q);
  }

  lemma CollectionRequestsReached(token: Option<string>, input: CreateInput)
    ensures var r := GetAllRequest(token); R.Dispatch(R.RegisteredRoutes, r.verb, r.path) == Some(R.Match(R.ListProducts, None))
    ensures var r := CreateRequest(token, input); R.Dispatch(R.RegisteredRoutes, r.verb, r.path) == Some(R.Match(R.CreateProduct, None))
  {
    R.ListReachable();
    R.CreateReachable();
  }

  lemma IdRequestsReached(token: Option<string>, id: string, update: UpdateInput)
    requires id != [] && '/' !in id && !EqualIgnoringCase(id, R.FilterSegment) && !EqualIgnoringCase(id, R.SearchSegment)
    requires update.id == id
    ensures var r := GetByIdRequest(token, id); R.Dispatch(R.RegisteredRoutes, r.verb, r.path) == Some(R.Match(R.GetProduct, Some(id)))
    ensures var r := UpdateRequest(token, update); R.Dispatch(R.RegisteredRoutes, r.verb, r.path) == Some(R.Match(R.UpdateProduct, Some(id)))
    ensures var r := DeleteRequest(token, id); R.Dispatch(R.RegisteredRoutes, r.verb, r.path) == Some(R.Match(R.DeleteProduct, Some(id)))
  {
    R.IdRoutesCaptureSegment(id);
  }

  lemma UploadRequestReached(token: Option<string>, file: FileInput)
    ensures var r := UploadRequest(token, file); R.Dispatch(R.RegisteredRoutes, r.verb, r.path) == Some(R.Match(R.UploadImage, None))
  {
    assert EqualIgnoringCase(R.UploadSegment, R.UploadSegment);
    R.UploadReachable(R.UploadSegment);
  }

  lemma FilterAndSearchRequestsReached(token: Option<string>, filters: FilterQuery, q: string)
    ensures var r := FilterRequest(token, filters); R.Dispatch(R.CorrectedRoutes, r.verb, r.path) == Some(R.Match(R.FilterProducts, None))
    ensures var r := SearchRequest(token, q); R.Dispatch(R.CorrectedRoutes, r.verb, r.path) == Some(R.Match(R.SearchProducts, None))
  {
    R.CorrectedReachesFilter();
    R.CorrectedReachesSearch();
  }

  /** In the registered order, the filter and search requests are answered as a lookup of the product with id `filter` or `search`. */
  lemma FilterAndSearchRequestsMisrouted(token: Option<string>, filters: FilterQuery, q: string)
    ensures var r := FilterRequest(token, filters);
      R.Dispatch(R.RegisteredRoutes, r.verb, r.path) == Some(R.Match(R.GetProduct, Some(R.FilterSegment)))
    ensures var r := SearchRequest(token, q);
      R.Dispatch(R.RegisteredRoutes, r.verb, r.path) == Some(R.Match(R.GetProduct, Some(R.SearchSegment)))
  {
    R.FilterAndSearchReadAsId();
  }

  /** `getProductById('')` asks for the list instead: its path is the collection's. */
  lemma EmptyIdListsProducts(token: Option<string>)
    ensures var r := GetByIdRequest(token, "");
      R.Dispatch(R.RegisteredRoutes, r.verb, r.path) == Some(R.Match(R.ListProducts, None))
  {
    R.ListReachable();
    assert GetByIdRequest(token, "").path == "/";
  }

  /** The upload request's file reaches the server's `image` field, so only its name being present, its type and its size decide the answer. */
  lemma UploadFieldMatches(token: Option<string>, file: FileInput, protocol: string, host: Option<string>,
                           now: nat, random: nat)
    requires random <= RandomSpan
    ensures UploadRequest(token, file).payload.field == ImageField
    ensures var part := FilePart(UploadRequest(token, file).payload.field, file.name, file.mimetype, file.size);
      (UploadImage(Some(part), protocol, host, now, random).ImageReply?
       <==> file.name != "" && FileFilter(file.mimetype) && file.size <= MaxFileSize)
  {
  }

  /** The upload request keeps the token header beside the multipart content type. */
  lemma UploadKeepsAuthHeader(token: Option<string>, file: FileInput)
    ensures AuthorizationOf(UploadRequest(token, file).headers) == AuthorizationOf(AuthHeader(token))
  {
  }

  /**
   * `searchProducts('')` under the corrected route order: the request reaches
   * the search handler, which refuses the empty `q` with 400 whatever the
   * table holds.
   */
  method EmptySearchRejected(store: ProductStore, caller: string, token: Option<string>, storeFails: bool)
    returns (routed: Option<R.Match>, reply: Reply)
    requires store.Valid()
    ensures routed == Some(R.Match(R.SearchProducts, None))
    ensures reply == ErrorReply(400, SearchQueryRequiredMessage)
  {
    var request := SearchRequest(token, "");
    routed := R.Dispatch(R.CorrectedRoutes, request.verb, request.path);
    R.CorrectedReachesSearch();
    reply := store.Search(caller, Some(request.payload.q), storeFails);
  }

  /**
   * `searchProducts('')` in the order the routes are registered: the request
   * is read as a lookup of the product with id `search`, so the answer is 404
   * unless the caller owns a product of that id, and never the 400 the
   * search handler would give.
   */
  method EmptySearchAsWritten(store: ProductStore, caller: string, token: Option<string>, storeFails: bool)
    returns (routed: Option<R.Match>, reply: Reply)
    ensures routed == Some(R.Match(R.GetProduct, Some(R.SearchSegment)))
    ensures storeFails ==> reply == ErrorReply(500, ServerErrorMessage)
    ensures !storeFails && !(R.SearchSegment in store.products && store.products[R.SearchSegment].userId == caller) ==>
      reply == ErrorReply(404, NotFoundMessage)
    ensures !storeFails && R.SearchSegment in store.products && store.products[R.SearchSegment].userId == caller ==>
      reply == ProductReply(200, store.products[R.SearchSegment])
  {
    var request := SearchRequest(token, "");
    routed := R.Dispatch(R.RegisteredRoutes, request.verb, request.path);
    R.FilterAndSearchReadAsId();
    reply := store.Get(caller, routed.value.id.value, storeFails);
  }
}
