/** The catalog's product record, restricted to the fields the favourites store
    and the description view read, and the identity both derive from it. */
module Products {
  import opened Wrappers
  import opened JsValues

  /** A phone, tablet or accessory. `id` and `itemId` may each be missing, a
      string or a number; the optional fields are `undefined` when `None`. */
  datatype Product = Product(
    id: JsValue,
    itemId: JsValue,
    image: Option<string>,
    images: Option<seq<string>>,
    color: Option<string>,
    capacity: Option<string>,
    colorsAvailable: Option<seq<string>>)

  /** `String(product.itemId || product.id)`: the identity both stores and the
      description view compare. */
  function Identity(p: Product): (r: string)
    ensures Truthy(p.itemId) || Truthy(p.id) ==> r != ""
    ensures p.itemId.Undefined? && p.id.Undefined? ==> r == "undefined"
  {
    ToJsString(Or(p.itemId, p.id))
  }

  /** A truthy `itemId` decides the identity; otherwise `id` does, so an empty
      or zero `itemId` falls back to `id`. */
  lemma IdentityPrefersItemId(p: Product)
    ensures Truthy(p.itemId) ==> Identity(p) == ToJsString(p.itemId)
    ensures !Truthy(p.itemId) ==> Identity(p) == ToJsString(p.id)
  {
  }
}
