# Product catalogue: request rules, token guard and client session

This project models the request-handling rules of a small product-catalogue web
application and proves properties about them in Dafny. The application has an
Express/Prisma backend and a React frontend. The model covers these parts:

- **Token guard** (`AuthMiddleware`). It reads the `Authorization` header and takes the
  second space-separated field as the token. It then answers 401 "token is required",
  answers 401 "invalid or expired", or records the caller and calls `next` once.
- **Login and signup** (`AuthRoutes`). A user table keyed by email, with checks in a fixed
  order: schema (400), lookup (401 on login, 400 "User already exists" on signup),
  password (401), then token.
  - Store failures give 500. Signup shows the failure reason only under
    `NODE_ENV=development`.
  - The token service and the password hasher are function values, each with a
    `Sound()` predicate.
- **Owner-scoped product table** (`ProductModel`, `ProductQuery`, `ProductRoutes`).
  - The two zod schemas (create, and its `.partial()` form for update).
  - The `where` objects of the list, filter and search routes, and what a row must
    satisfy to match one.
  - A `ProductStore` class whose handlers read and change a `map` of rows. Its
    `FindMany` loop returns every matching row once, newest first.
- **Route table** (`ProductRouter`). First-match dispatch over the routes in their
  registration order, with the router's default settings: literals compared without
  regard to case, and one trailing slash allowed.
- **Image upload** (`ProductUpload`). The multipart middleware's field, type and size
  checks; the stored file name `<ms>-<random><extension>` with `path.extname` written
  out; and the returned URL.
- **Browser side.**
  - `AuthService`: the `localStorage['token']` slot as a `TokenStore` class.
  - `ProductService`: `getAuthHeader` and the request each product operation sends.
  - `ProductContext`: the prepend-only list update and the `useProduct` guard.
- **Both sides together** (`SessionFlow`). A login's token is stored, sent back in the
  header, and accepted by the guard for a day. Product creation behind the guard is
  always done for the token's user.

The two services in the browser fall back to different default base URLs when
`REACT_APP_API_URL` is unset: port 5000 for authentication, port 3001 for products.
`ProductService.ApiUrlsAgreeOnlyWhenSet` states this.

Store faults, the clock, the random number, the generated ids, the bcrypt salt
and the environment settings are parameters. HTTP transport, disk writes and
logging are not modelled.

## Model

| member | source | states |
|---|---|---|
| Js.Utf16Length | backend/src/routes/auth.ts:13 | a string's JavaScript length lies between its number of characters and twice that |
| Js.Utf16LengthOfPlane | backend/src/routes/auth.ts:13 | inside the Basic Multilingual Plane, the JavaScript length is the number of characters |
| Js.Utf16LengthOfAstral | backend/src/routes/auth.ts:13 | a string of characters beyond the Basic Multilingual Plane has twice as many code units as characters |
| Js.JoinSplit | backend/src/middleware/auth.ts:26 | `split(' ')` loses nothing: joining the fields with the separator gives the header back |
| Tokens.SigningSecret | backend/src/middleware/auth.ts:32 | the secret is `JWT_SECRET` when that is set and non-empty, otherwise the constant `fallback-secret` |
| AuthMiddleware.BearerToken | backend/src/middleware/auth.ts:26 | a second field exists exactly when the header contains a space, and it contains no space |
| AuthMiddleware.BearerTokenOfScheme | backend/src/middleware/auth.ts:26 | `scheme + " " + t` yields exactly `t` for space-free `scheme` and `t` |
| AuthMiddleware.Decide | backend/src/middleware/auth.ts:18-39 | it rejects only with 401 and one of the two messages; it proceeds only with the claims the verifier returned for the second field of a present header |
| AuthMiddleware.MissingHeaderRejected | backend/src/middleware/auth.ts:20-24 | a missing or empty header gets 401 "Authentication token is required" |
| AuthMiddleware.SchemeAloneRejected | backend/src/middleware/auth.ts:26-30 | `Bearer` alone has no token and gets 401 "token is required" |
| AuthMiddleware.DoubleSpaceRejected | backend/src/middleware/auth.ts:26-30 | `Bearer  x` (two spaces) has an empty token and gets 401 "token is required" |
| AuthMiddleware.SchemeWordUnchecked | backend/src/middleware/auth.ts:26 | any first word is treated exactly like `Bearer` |
| AuthMiddleware.UnverifiedTokenRejected | backend/src/middleware/auth.ts:32-38 | a token the verifier refuses gets 401 "Invalid or expired token" |
| AuthMiddleware.ExpiredTokenRejected | backend/src/middleware/auth.ts:32-38 | a token signed with the configured secret gets 401 "Invalid or expired token" from the second its one-day lifetime ends |
| AuthMiddleware.Authenticate | backend/src/middleware/auth.ts:18-39 | on rejection: status and message written, `req.user` and `next` untouched; on success: `req.user` set to the claims, `next` called once, no response written |
| AuthMiddleware.AuthenticateFresh | backend/src/middleware/auth.ts:18-39 | exactly one outcome per request: a 401 response or a single `next` call, never both |
| AuthRoutes.DatabaseFailure | backend/src/routes/auth.ts:115-120 | 500 "Database error"; details are present exactly under `NODE_ENV=development`, and then they hold the reason |
| AuthRoutes.SchemaCheckedFirst | backend/src/routes/auth.ts:11-19 | a body failing the email / min-6 password schema gets 400 "Invalid input" on login and on signup, and the table is unchanged; the password's length counts UTF-16 code units |
| AuthRoutes.PasswordLengthInCodeUnits | backend/src/routes/auth.ts:13 | three characters beyond the Basic Multilingual Plane pass the six-character minimum, three ordinary characters do not |
| AuthRoutes.LoginReply | backend/src/routes/auth.ts:22-64 | a session answer is 200 for a registered email; every refusal is 400, 401 or 500 without details |
| AuthRoutes.SignupResult | backend/src/routes/auth.ts:67-121 | a session answer is 201; every refusal is 400 or 500 |
| AuthRoutes.LoginHidesWhichCheckFailed | backend/src/routes/auth.ts:32-40 | an unknown email and a wrong password get the identical 401 "Invalid credentials" |
| AuthRoutes.LoginSuccess | backend/src/routes/auth.ts:43-56 | success means the schema and the password check passed; the reply is 200 with a one-day token over `{userId, email}` and a user object without the password |
| AuthRoutes.SignupDuplicateRejected | backend/src/routes/auth.ts:77-84 | a registered email gets 400 "User already exists" and the table is unchanged |
| AuthRoutes.SignupAddsOneUser | backend/src/routes/auth.ts:86-114 | a successful signup adds exactly one row under the new email; the row stores the cost-10 hash, which is not the password and matches it; the reply is 201 with the new id and email |
| AuthRoutes.SignupRefusalKeepsTable | backend/src/routes/auth.ts:115-120 | every refused signup leaves the table unchanged and answers 400 or 500; details appear only on a 500 in development |
| AuthRoutes.SignupThenLogin | backend/src/routes/auth.ts:91-104 | logging in after signing up succeeds, and the token verifies to the new id and email for a day |
| AuthRoutes.UserStore.Login | backend/src/routes/auth.ts:22-64 | the handler's checks, in order, give `LoginReply` |
| AuthRoutes.UserStore.Signup | backend/src/routes/auth.ts:67-121 | reply and new table are `SignupResult` of the old table; the table stays keyed by email |
| ProductModel.ParseCreate | backend/src/routes/products.ts:43-50 | accepts exactly when name, description and category are non-empty strings, price > 0, rating is absent or in [0,5], and imageUrl is absent or a string; the result keeps exactly the schema's properties |
| ProductModel.ParsePatch | backend/src/routes/products.ts:52 | every property is optional, and each present one is checked as on create; the patch holds exactly the present properties |
| ProductModel.CreateBodyIsValidPatch | backend/src/routes/products.ts:43-52 | a body the create schema accepts is accepted by the update schema, with every property present |
| ProductModel.InvalidPatchIsInvalidCreate | backend/src/routes/products.ts:43-52 | a body the update schema refuses is refused on create |
| ProductModel.NewProduct | backend/src/routes/products.ts:101-106 | the new row has the generated id, the caller as owner, and both times set to now |
| ProductModel.ApplyPatchChangesOnlyPatched | backend/src/routes/products.ts:136-141 | an update keeps id, owner and creation time; it replaces exactly the properties present in the patch and keeps the rest |
| ProductModel.EmptyPatchOnlyTouches | backend/src/routes/products.ts:136-141 | an empty patch changes nothing but `updatedAt` |
| ProductQuery.OwnerWhere | backend/src/routes/products.ts:57-60 | the list route's `where` matches exactly the caller's rows |
| ProductQuery.BuildFilterWhere | backend/src/routes/products.ts:188-215 | the `where` built step by step matches a row exactly when it is the caller's and meets every filter given; the two price bounds compose |
| ProductQuery.PriceRangeInclusive | backend/src/routes/products.ts:196-210 | with both bounds given, exactly the caller's rows with `minPrice <= price <= maxPrice` match, both ends included |
| ProductQuery.SearchWhere | backend/src/routes/products.ts:241-258 | the search `where` matches exactly the caller's rows whose name or description contains `q`, ignoring case |
| ProductQuery.SearchIgnoresCase | backend/src/routes/products.ts:245-256 | `abc` finds a product named `ABCxyz` |
| ProductQuery.SearchNeedsText | backend/src/routes/products.ts:241-258 | a row with the text in neither name nor description is not found |
| ProductQuery.WhereIsOwnerScoped | backend/src/routes/products.ts:188-190 | every row a `where` matches belongs to that `where`'s user |
| ProductRoutes.InsertNewestFirst | backend/src/routes/products.ts:61-63 | inserting a row keeps a list newest first and free of repeats; the list gains exactly that row |
| ProductRoutes.FindOwned | backend/src/routes/products.ts:78-83 | a row is found exactly when that id exists and belongs to the caller |
| ProductRoutes.ProductStore.FindMany | backend/src/routes/products.ts:57-64 | the loop returns exactly the rows matching the `where`, each once, newest first |
| ProductRoutes.ProductStore.List | backend/src/routes/products.ts:55-71 | 200 with exactly the caller's rows, newest first; 500 when the store throws |
| ProductRoutes.ProductStore.Get | backend/src/routes/products.ts:74-94 | 200 with the row when it exists and is the caller's; otherwise 404, whether the row is missing or someone else's |
| ProductRoutes.ProductStore.Create | backend/src/routes/products.ts:97-116 | 400 and no change for an invalid body; otherwise 500 and no change on a fault; otherwise 201, and the table gains exactly one row, owned by the caller whatever the body says |
| ProductRoutes.ProductStore.Update | backend/src/routes/products.ts:119-151 | 400 before ownership is looked at, then 500, then 404; on success only that row changes, by the patch |
| ProductRoutes.ProductStore.Delete | backend/src/routes/products.ts:154-181 | 404 unless the caller owns the row; otherwise 204, and exactly that row is removed |
| ProductRoutes.ProductStore.Filter | backend/src/routes/products.ts:184-229 | 200 with exactly the caller's rows meeting every filter given, newest first |
| ProductRoutes.ProductStore.Search | backend/src/routes/products.ts:232-268 | 400 for a missing or empty `q`; otherwise exactly the caller's rows whose name or description contains `q` ignoring case, newest first |
| ProductRoutes.OwnerIsolation | backend/src/routes/products.ts:55-268 | on any table, what one user creates another user can neither read, change nor delete (404 each) and sees in no list, filter or search; that user's list is exactly what it was, and the table gains only the new row |
| ProductRouter.SingleSegment | backend/src/routes/products.ts:74 | a path fits `/:id` only as `/seg` or `/seg/`, with `seg` non-empty and slash-free |
| ProductRouter.SingleSegmentOf | backend/src/routes/products.ts:74 | `/seg` and `/seg/` both yield `seg` |
| Js.EqualIgnoringCaseIsLowerEqual | backend/src/routes/products.ts:184 | comparing path segments without regard to case is comparing their lower-cased forms |
| ProductRouter.PatternMatch | backend/src/routes/products.ts:55-271 | `/` fits the empty path and `/`; `/:id` captures the single segment; a literal fits that segment ignoring case |
| ProductRouter.LiteralImpliesParam | backend/src/routes/products.ts:184 | every path a literal route fits, `/:id` fits too |
| ProductRouter.FirstFit | backend/src/routes/products.ts:55-271 | the position returned is of a route that fits, and no earlier route fits |
| ProductRouter.Dispatch | backend/src/routes/products.ts:55-271 | no handler exactly when no route fits; otherwise the earliest fitting route's handler, with its captured id |
| ProductRouter.FilterAndSearchUnreachable | backend/src/routes/products.ts:74-232 | in the registered order, no request reaches the filter or search handler |
| ProductRouter.FilterAndSearchReadAsId | backend/src/routes/products.ts:74-94 | `GET /filter` and `GET /search` reach `GET /:id` with id `filter` / `search` |
| ProductRouter.CorrectedReachesFilter | backend/src/routes/products.ts:184 | with the literal routes registered first, `GET /filter` reaches the filter handler |
| ProductRouter.CorrectedReachesSearch | backend/src/routes/products.ts:232 | with the literal routes registered first, `GET /search` reaches the search handler |
| ProductRouter.CorrectedAgreesElsewhere | backend/src/routes/products.ts:55-271 | the reordering changes the outcome of no other request |
| ProductRouter.IdRoutesCaptureSegment | backend/src/routes/products.ts:74-76 | GET, PUT and DELETE of `/seg` reach their id handlers with `id == seg` |
| ProductRouter.CollectionAndUploadReachable | backend/src/routes/products.ts:55-271 | `GET /` and `POST /` reach the list and create handlers; `POST /upload-image`, written in any case, reaches the upload handler |
| ProductRouter.DispatchAt | backend/src/routes/products.ts:55-271 | when route `i` fits and none before it does, that route's handler answers, with what its pattern captured |
| ProductRouter.DropUnfit | backend/src/routes/products.ts:55-271 | removing a route that does not fit a request leaves that request's dispatch unchanged |
| ProductRouter.DropPair | backend/src/routes/products.ts:55-271 | removing two adjacent routes, neither of which fits a request, leaves that request's dispatch unchanged |
| ProductRouter.SameRoutesBesideLiterals | backend/src/routes/products.ts:55-271 | without the filter and search routes, the registered and the corrected tables list the same routes in the same order |
| ProductUpload.FileFilterAcceptsExactly | backend/src/routes/products.ts:32-39 | the filter accepts exactly `image/jpeg`, `image/png` and `image/gif` |
| ProductUpload.ExtName | backend/src/routes/products.ts:23 | the extension is empty, or a dot followed by text with no dot and no slash |
| ProductUpload.ExtNameOfPlainName | backend/src/routes/products.ts:23 | the extension runs from the last dot: `photo.tar.gz` gives `.gz` |
| ProductUpload.ExtNameOfDotFile | backend/src/routes/products.ts:23 | a leading dot alone starts no extension: `.bashrc` gives none |
| ProductUpload.ExtNameAtLastDot | backend/src/routes/products.ts:23 | in a slash-free name other than `..` whose last dot is not its first character, the extension runs from that dot to the end |
| ProductUpload.ExtNameOfLeadingDot | backend/src/routes/products.ts:23 | a slash-free name whose only dot is its first character has no extension |
| ProductUpload.StoredName | backend/src/routes/products.ts:21-24 | the stored name contains no slash, so the file lands in the upload directory itself |
| ProductUpload.ExtNameOfStoredName | backend/src/routes/products.ts:21-24 | the stored name keeps the original file's extension |
| ProductUpload.StoredNamesDistinct | backend/src/routes/products.ts:22 | different timestamps or different random parts give different stored names |
| ProductUpload.ImageUrl | backend/src/routes/products.ts:278-283 | the URL starts with `protocol://` and ends with the file name |
| ProductUpload.ImageUrlPathIsStoredPath | backend/src/routes/products.ts:283 | the URL's path after the host is `/` followed by the stored file's path on disk, `uploads/<name>`: the URL and the storage (line 15) use the same directory |
| ProductUpload.ImageUrlNamesStoredFile | backend/src/routes/products.ts:283 | the URL's last path component is exactly the stored file name |
| ProductUpload.UploadImage | backend/src/routes/products.ts:271-290 | 400 without a file, and for a part whose file name is empty (a form sent with no file chosen), which the middleware skips; 200 with the URL of the stored name exactly for a file in field `image` of an allowed type within 5 MiB; otherwise an error is passed on, first for a wrong field, then for a wrong type |
| ProductUpload.UploadKeepsExtension | backend/src/routes/products.ts:271-283 | an accepted upload's URL names a file with the original extension |
| AuthService.UnsuccessfulLoginKeepsToken | frontend/src/services/authService.ts:26-33 | a login that throws, or returns no truthy token, leaves the stored token as it was |
| AuthService.LoginAuthenticates | frontend/src/services/authService.ts:27-29 | after login the session is authenticated exactly when it already was, or the login returned a truthy token |
| AuthService.LoginIdempotent | frontend/src/services/authService.ts:27-29 | repeating a login that ended the same way stores the same token |
| AuthService.TokenStore.Login | frontend/src/services/authService.ts:24-34 | the stored token becomes `TokenAfterLogin` of the old one; the answer is returned, or the error rethrown, unchanged |
| AuthService.TokenStore.Signup | frontend/src/services/authService.ts:36-43 | the answer is returned unchanged, and the stored token cannot change |
| AuthService.TokenStore.Logout | frontend/src/services/authService.ts:45-47 | no token is stored afterwards |
| AuthService.TokenStore.GetCurrentToken | frontend/src/services/authService.ts:49-51 | returns the stored token, or null |
| AuthService.TokenStore.IsAuthenticated | frontend/src/services/authService.ts:53-55 | true exactly when a non-empty token is stored |
| AuthService.LogoutSignsOut | frontend/src/services/authService.ts:45-55 | after logout the current token is null and the session is not authenticated |
| AuthService.SignupKeepsToken | frontend/src/services/authService.ts:36-43 | a signup between two reads of the token leaves it unchanged |
| AuthService.LoginThenAuthenticated | frontend/src/services/authService.ts:24-34 | a login returning a non-empty token stores it and authenticates the session |
| Js.OrElse | frontend/src/services/productService.ts:5 | `REACT_APP_API_URL || default` is the setting when it is set and non-empty, the default otherwise, and never empty |
| ProductService.ApiUrlsAgreeOnlyWhenSet | frontend/src/services/productService.ts:5 | the two services' base URLs agree exactly when `REACT_APP_API_URL` is set and non-empty; otherwise their defaults differ |
| ProductService.AuthHeader | frontend/src/services/productService.ts:8-11 | an `Authorization` header is present exactly when a non-empty token is stored, its value is `Bearer <token>`, and no other header is set |
| ProductService.AuthHeaderRoundTrip | frontend/src/services/productService.ts:10 | the header is `Bearer <t>`, and the guard's `split(' ')[1]` gives back exactly `t` |
| ProductService.AuthHeaderAccepted | frontend/src/services/productService.ts:8-11 | a header built from a token the verifier accepts passes the guard with that token's claims |
| ProductService.NoTokenNoHeader | frontend/src/services/productService.ts:8-11 | without a token no header is sent, and the guard answers 401 "token is required" |
| ProductService.CreateBodyRoundTrip | frontend/src/services/productService.ts:36-45 | the server's create schema accepts the client body exactly when the input meets its rules, and keeps every property |
| ProductService.UpdateBodyRoundTrip | frontend/src/services/productService.ts:47-57 | the body without the id is read back by the update schema as exactly the properties the input sets |
| ProductService.RequestsReachTheirHandlers | frontend/src/services/productService.ts:14-114 | every client request reaches its intended handler, and the id in the path arrives as `id`; filter and search need the corrected route order |
| ProductService.FilterAndSearchRequestsMisrouted | frontend/src/services/productService.ts:69-96 | in the registered order, the client's filter and search requests are answered as lookups of ids `filter` and `search` |
| ProductService.EmptyIdListsProducts | frontend/src/services/productService.ts:25-34 | `getProductById('')` reaches the list handler |
| ProductService.UploadFieldMatches | frontend/src/services/productService.ts:98-114 | the client's form field is `image`, so only a non-empty file name, the file's type and its size decide whether the server accepts it |
| ProductService.UploadKeepsAuthHeader | frontend/src/services/productService.ts:104-107 | the upload request carries the same token header as the other requests |
| ProductService.EmptySearchRejected | frontend/src/services/productService.ts:86-96 | under the corrected route order, `searchProducts('')` reaches the search handler and is answered 400 whatever the table holds |
| ProductService.EmptySearchAsWritten | frontend/src/services/productService.ts:86-96 | in the registered order, `searchProducts('')` is a lookup of id `search`: 404 unless the caller owns a row with that id, which is then returned with 200, and 500 when the store throws |
| ProductContext.AddProductToList | frontend/src/context/ProductContext.tsx:15-17 | the list grows by exactly one |
| ProductContext.AddPutsNewFirst | frontend/src/context/ProductContext.tsx:16 | the new product comes first, and the previous ones follow in their old order |
| ProductContext.AddKeepsEverything | frontend/src/context/ProductContext.tsx:16 | the list's multiset gains exactly the new product |
| ProductContext.AddAllowsDuplicateIds | frontend/src/context/ProductContext.tsx:16 | adding a product whose id is already listed leaves two entries with that id |
| ProductContext.AddTwice | frontend/src/context/ProductContext.tsx:16 | adding the same product twice lists it twice at the front |
| ProductContext.UseProduct | frontend/src/context/ProductContext.tsx:26-32 | it throws exactly when there is no provider, with the provider message; otherwise it returns the provider's value |
| SessionFlow.ClientView | frontend/src/services/authService.ts:24-34 | the client resolves exactly on a 2xx session answer, with its token and user |
| SessionFlow.LoginThenAuthorizedRequest | backend/src/routes/auth.ts:43-56 | after a successful login the browser holds a truthy token, and for a day its requests pass the guard as the user who logged in |
| SessionFlow.LoginTokenExpires | backend/src/routes/auth.ts:43-47 | from a day after the login on, the token the browser stored is refused with 401 "Invalid or expired token" |
| SessionFlow.RefusedLoginKeepsSession | frontend/src/services/authService.ts:31-33 | a refused login leaves the browser's stored token as it was |
| SessionFlow.GuardedCreate | backend/src/routes/products.ts:97-108 | behind the guard, a refused request is 401 and changes nothing; a created product belongs to the token's user |

## Left out

- Prisma and the database are not modelled. The table is a `map` from id to row.
  - `findMany` is the `ProductStore.FindMany` loop. It orders rows by `createdAt` only; rows with equal `createdAt` may come in any order.
  - A throwing store is the `storeFails` flag or the `Fault` value.
  - Generated ids are a `freshId` parameter. An id already in use makes the product insert fail with 500.
- The Prisma schema is not part of this model. `createdAt` and `updatedAt` are taken to be set to the request time on create, and `updatedAt` on update.
- The `errors` array of zod's 400 answers is not modelled. Only the status and message are.
- zod's email check is the `isEmail` parameter.
- `jsonwebtoken` and `bcryptjs` are function values. The lemmas rely only on their `Sound()` predicates: tokens are non-empty and space-free, a token verifies within its lifetime and never after it, a password matches its own hash, and a hash is never the password itself.
- AuthMiddleware.Decide: the `as JwtPayload` cast is taken at its word. The verifier returns claims of the `{userId, email}` shape.
- The signup handler's outer catch for non-validation errors is not modelled: a missing body is not represented. The 500 "Server error" with development details for that case is therefore missing.
- `parseFloat` and NaN are not modelled. The filter route's numbers arrive already parsed (`FilterQuery`). A repeated query parameter, which would arrive as an array, is not represented.
- The client's filter numbers are taken to reach the server unchanged. This assumes the number-to-string-to-`parseFloat` round trip.
- Case-insensitive matching lowers ASCII letters only. The database's collation and Unicode case folding are not modelled.
- ProductUpload.ExtName: follows POSIX `path.extname`. Windows separators are not modelled.
- Routing: percent-decoding of `:id`, `HEAD` requests, and routes outside the products router are not modelled. Paths are taken below the `/products` mount point, without a query string.
- Header names are a single `Authorization` key. HTTP's case-insensitive header names are not modelled.
- AuthRoutes.SignupResult: the generated user id is taken to be unused. A clash of generated ids, which would make the insert throw and give 500 "Database error", is represented only by the `CreateFails` fault.
- Requests are handled one at a time. Races between a handler's lookup and its write are not modelled: two concurrent signups with one email (`findUnique` then `create`), or an update or delete racing the ownership check. Their effect appears only as a store fault (`Fault`, `storeFails`); for instance, the second of two concurrent signups would really get 500 "Database error", not 400.
- Multer itself is not part of this model. Three of its behaviours are taken as given: it skips a file part with an empty file name, so `req.file` stays unset; it refuses a part in another field; and it applies the file filter before the size limit.
- Multer's file writes, `fs.mkdirSync` and disk errors are not modelled. Neither are more than one file part or other form fields.
- A wrong field, a wrong type or a file over 5 MiB is passed to `next(err)`, shown as `Forwarded`, and is not answered 400. The application's error handler is not part of this model.
- The clock (`Date.now()`, token times in seconds) and `Math.random()` are parameters.
- The browser's HTTP client is represented by the `Outcome` each request ends with. `localStorage` is the single `token` slot of `TokenStore`.
- The frontend `Product` type declares `rating` as always present, but the server may send none. The model uses the server's row shape.
- React rendering, the pages, the form-side checks and navigation are not modelled.
- Logging is not modelled.

## Findings

| source | as written | input that shows it | evidently intended | confidence | as-written member | corrected member |
|---|---|---|---|---|---|---|
| backend/src/routes/products.ts:74 | `GET /:id` is registered before `GET /filter` (line 184) and `GET /search` (line 232); first-match dispatch hands both paths to `/:id` | `GET /products/filter?category=books` is answered as a lookup of id `filter` (404) | the filter and search routes answer the client's `filterProducts` and `searchProducts` requests | high; not executed | ProductRouter.FilterAndSearchReadAsId | ProductRouter.CorrectedReachesFilter |
