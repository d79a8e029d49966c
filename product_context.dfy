/**
 * The browser's shared product list: the provider holds the list, and
 * `addProductToList` puts a newly created product in front of it. Reading
 * the shared value outside a provider throws.
 */
module ProductContext {
  import opened Js
  import opened Wrappers
  import opened ProductModel

  /** `[newProduct, ...prevProducts]`: the list after adding `p`. */
  function AddProductToList(prev: seq<Product>, p: Product): (next: seq<Product>)
    ensures |next| == |prev| + 1
  {
    [p] + prev
  }

  /** The new product comes first, and the previous products follow in their old order. */
  lemma AddPutsNewFirst(prev: seq<Product>, p: Product)
    ensures AddProductToList(prev, p)[0] == p
    ensures AddProductToList(prev, p)[1..] == prev
    ensures forall i :: 0 <= i < |prev| ==> AddProductToList(prev, p)[i + 1] == prev[i]
  {
  }

  /** Nothing is dropped: the list gains exactly one occurrence of `p`. */
  lemma AddKeepsEverything(prev: seq<Product>, p: Product)
    ensures multiset(AddProductToList(prev, p)) == multiset(prev) + multiset{p}
  {
  }

  /** Adding does not look at ids: a product whose id is already listed is listed twice. */
  lemma AddAllowsDuplicateIds(prev: seq<Product>, p: Product)
    requires exists i :: 0 <= i < |prev| && prev[i].id == p.id
    ensures exists j, k ::
      && 0 <= j < k < |AddProductToList(prev, p)|
      && AddProductToList(prev, p)[j].id == p.id
      && AddProductToList(prev, p)[k].id == p.id
  {
    var next := AddProductToList(prev, p);
    var i :| 0 <= i < |prev| && prev[i].id == p.id;
    assert next[0] == p && next[i + 1] == prev[i];
  }

  /** Adding the same product twice lists it twice, at the front. */
  lemma AddTwice(prev: seq<Product>, p: Product)
    ensures AddProductToList(AddProductToList(prev, p), p) == [p, p] + prev
  {
  }

  /** What the provider shares: the list. */
  datatype ContextValue = ContextValue(products: seq<Product>)

  const OutsideProviderMessage: string := "useProduct must be used within a ProductProvider"

  /** `useProduct()`: the provider's value, or a throw when there is no provider above the caller. */
  function UseProduct(context: Option<ContextValue>): (r: Outcome<ContextValue>)
    ensures r.Thrown? <==> context.None?
    ensures r.Thrown? ==> r.error == OutsideProviderMessage
    ensures r.Returned? ==> r.value == context.value
  {
    if context.None? then Thrown(OutsideProviderMessage) else Returned(context.value)
  }
}
