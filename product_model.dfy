/**
 * Products, the bodies the product routes accept, the two zod schemas that
 * validate them (`createProductSchema` and its `.partial()` form for
 * updates), and the replies the routes send.
 */
module ProductModel {
  import opened Wrappers
  import opened Js

  /** A row of the product table; `userId` is the owner. Times are in milliseconds. */
  datatype Product = Product(
    id: string,
    name: string,
    description: string,
    category: string,
    price: real,
    rating: Option<real>,
    imageUrl: Option<string>,
    userId: string,
    createdAt: int,
    updatedAt: int)

  /**
   * The JSON body of a create or update request. `userId` stands for any
   * property outside the schema that a client may send.
   */
  datatype ProductBody = ProductBody(
    name: Field<string>,
    description: Field<string>,
    category: Field<string>,
    price: Field<real>,
    rating: Field<real>,
    imageUrl: Field<string>,
    userId: Field<string>)

  /** What `createProductSchema.parse` returns: the schema's properties only. */
  datatype ProductData = ProductData(
    name: string,
    description: string,
    category: string,
    price: real,
    rating: Option<real>,
    imageUrl: Option<string>)

  /** What `updateProductSchema.parse` returns: each property present or not. */
  datatype ProductPatch = ProductPatch(
    name: Option<string>,
    description: Option<string>,
    category: Option<string>,
    price: Option<real>,
    rating: Option<real>,
    imageUrl: Option<string>)

  /** What a product route answers. */
  datatype Reply =
    | ProductReply(status: int, product: Product)
    | ListReply(status: int, products: seq<Product>)
    | ImageReply(status: int, imageUrl: string)
    | NoContent(status: int)
    | ErrorReply(status: int, message: string)
    | Forwarded(error: string)   // handed to the application's error handler with `next(err)`

  const InvalidInputMessage: string := "Invalid input"
  const NotFoundMessage: string := "Product not found"
  const ServerErrorMessage: string := "Server error"

  // One rule per property of `createProductSchema`.

  /** `z.string().min(1)` */
  predicate NameRule(s: string) { |s| >= 1 }

  /** `z.number().positive()` */
  predicate PriceRule(x: real) { x > 0.0 }

  /** `z.number().min(0).max(5)` */
  predicate RatingRule(x: real) { 0.0 <= x <= 5.0 }

  /** A required property that must satisfy `rule`. */
  predicate Required<T>(f: Field<T>, rule: T -> bool)
  {
    f.Present? && rule(f.value)
  }

  /** An `.optional()` property: missing, or present and satisfying `rule`. */
  predicate Optional<T>(f: Field<T>, rule: T -> bool)
  {
    f.Absent? || (f.Present? && rule(f.value))
  }

  function ToOption<T>(f: Field<T>): Option<T>
  {
    if f.Present? then Some(f.value) else None
  }

  /** `createProductSchema.parse(body)`: the validated data, or None where zod throws. */
  function ParseCreate(body: ProductBody): (r: Option<ProductData>)
    ensures r.Some? <==>
      && body.name.Present? && |body.name.value| >= 1
      && body.description.Present? && |body.description.value| >= 1
      && body.category.Present? && |body.category.value| >= 1
      && body.price.Present? && body.price.value > 0.0
      && (body.rating.Absent? || (body.rating.Present? && 0.0 <= body.rating.value <= 5.0))
      && !body.imageUrl.Invalid?
    ensures r.Some? ==>
      && r.value.name == body.name.value && r.value.description == body.description.value
      && r.value.category == body.category.value && r.value.price == body.price.value
      && r.value.rating == ToOption(body.rating) && r.value.imageUrl == ToOption(body.imageUrl)
  {
    if && Required(body.name, NameRule)
       && Required(body.description, NameRule)
       && Required(body.category, NameRule)
       && Required(body.price, PriceRule)
       && Optional(body.rating, RatingRule)
       && Optional(body.imageUrl, (_: string) => true)
    then
      Some(ProductData(body.name.value, body.description.value, body.category.value, body.price.value,
                       ToOption(body.rating), ToOption(body.imageUrl)))
    else None
  }

  /** `updateProductSchema.parse(body)`: every property optional, each present one checked as on create. */
  function ParsePatch(body: ProductBody): (r: Option<ProductPatch>)
    ensures r.Some? <==>
      && (body.name.Absent? || (body.name.Present? && |body.name.value| >= 1))
      && (body.description.Absent? || (body.description.Present? && |body.description.value| >= 1))
      && (body.category.Absent? || (body.category.Present? && |body.category.value| >= 1))
      && (body.price.Absent? || (body.price.Present? && body.price.value > 0.0))
      && (body.rating.Absent? || (body.rating.Present? && 0.0 <= body.rating.value <= 5.0))
      && !body.imageUrl.Invalid?
    ensures r.Some? ==>
      r.value == ProductPatch(ToOption(body.name), ToOption(body.description), ToOption(body.category),
                              ToOption(body.price), ToOption(body.rating), ToOption(body.imageUrl))
  {
    if && Optional(body.name, NameRule)
       && Optional(body.description, NameRule)
       && Optional(body.category, NameRule)
       && Optional(body.price, PriceRule)
       && Optional(body.rating, RatingRule)
       && Optional(body.imageUrl, (_: string) => true)
    then
      Some(ProductPatch(ToOption(body.name), ToOption(body.description), ToOption(body.category),
                        ToOption(body.price), ToOption(body.rating), ToOption(body.imageUrl)))
    else None
  }

  /** Whatever the create schema accepts, the update schema accepts, with every property present. */
  lemma CreateBodyIsValidPatch(body: ProductBody)
    requires ParseCreate(body).Some?
    ensures ParsePatch(body).Some?
    ensures var d := ParseCreate(body).value;
      ParsePatch(body).value == ProductPatch(Some(d.name), Some(d.description), Some(d.category),
                                             Some(d.price), d.rating, d.imageUrl)
  {
  }

  /** A body the update schema refuses is refused on create too. */
  lemma InvalidPatchIsInvalidCreate(body: ProductBody)
    requires ParsePatch(body).None?
    ensures ParseCreate(body).None?
  {
  }

  /** The row `prisma.product.create` stores: the validated data, owned by `owner`. */
  function NewProduct(id: string, data: ProductData, owner: string, now: int): (p: Product)
    ensures p.id == id && p.userId == owner
    ensures p.createdAt == now && p.updatedAt == now
  {
    Product(id, data.name, data.description, data.category, data.price, data.rating, data.imageUrl,
            owner, now, now)
  }

  function Patched<T>(current: T, update: Option<T>): T
  {
    if update.Some? then update.value else current
  }

  /** The row `prisma.product.update` stores: present properties replaced, the rest kept. */
  function ApplyPatch(p: Product, patch: ProductPatch, now: int): (q: Product)
  {
    p.(name := Patched(p.name, patch.name),
       description := Patched(p.description, patch.description),
       category := Patched(p.category, patch.category),
       price := Patched(p.price, patch.price),
       rating := if patch.rating.Some? then patch.rating else p.rating,
       imageUrl := if patch.imageUrl.Some? then patch.imageUrl else p.imageUrl,
       updatedAt := now)
  }

  /**
   * An update never moves a product to another owner or changes its id or
   * creation time; a property the patch leaves out keeps its value, and one
   * it carries takes the new value.
   */
  lemma ApplyPatchChangesOnlyPatched(p: Product, patch: ProductPatch, now: int)
    ensures var q := ApplyPatch(p, patch, now);
      && q.id == p.id && q.userId == p.userId && q.createdAt == p.createdAt && q.updatedAt == now
      && (patch.name.None? ==> q.name == p.name) && (patch.name.Some? ==> q.name == patch.name.value)
      && (patch.description.None? ==> q.description == p.description)
      && (patch.description.Some? ==> q.description == patch.description.value)
      && (patch.category.None? ==> q.category == p.category)
      && (patch.category.Some? ==> q.category == patch.category.value)
      && (patch.price.None? ==> q.price == p.price) && (patch.price.Some? ==> q.price == patch.price.value)
      && (patch.rating.None? ==> q.rating == p.rating) && (patch.rating.Some? ==> q.rating == patch.rating)
      && (patch.imageUrl.None? ==> q.imageUrl == p.imageUrl)
      && (patch.imageUrl.Some? ==> q.imageUrl == patch.imageUrl)
  {
  }

  /** An empty patch changes nothing but the update time. */
  lemma EmptyPatchOnlyTouches(p: Product, now: int)
    ensures ApplyPatch(p, ProductPatch(None, None, None, None, None, None), now) == p.(updatedAt := now)
  {
  }
}
