# Phone catalog: favourites store and product variant selector

This project models the client-side logic of a React phone catalog. It covers
two parts.

- **The favourites store** (`src/store/FavouriteContext.tsx`). A reducer keeps
  a list of `{product, quantity}` entries. An add action appends an entry with
  quantity 1 unless an entry with the same identity exists. A remove action
  filters out every entry with the given identity. Identity is
  `String(itemId || id)`. Around the reducer sits a provider. It starts from the
  value stored under the key `"favourite"`, writes the list back after each
  change and exposes `favouritesCount`.
- **The product description view**
  (`src/components/ProductDescription/ProductDescription.tsx`). It builds the
  slugs of sibling variants when a colour or a capacity is picked. It tells
  whether the shown product is in the cart or in the favourites, and toggles the
  favourite. It picks the main image source and keeps a small selection state
  (image, colour, capacity) that resets when the product's main values change.

Modules:

- `Wrappers`: `Option` and `Result`.
- `Sequences`: associativity of concatenation.
- `JsValues`: JavaScript truthiness, `a || b`, and `String(v)` for the scalar
  values found in `id`/`itemId` (missing, string or integer).
- `JsStrings`: `split('-')`, `join('-')`, `replace(/\s+/g, '-')` with the
  ECMAScript white-space class, and `toLowerCase()` over ASCII.
- `Products`: the product record and its identity.
- `Favourites`: the reducer, its properties, the initial value, and the
  provider as the class `FavouriteStore`.
- `ProductDescription`: the two slug handlers, the membership predicates, the
  favourite toggle, the image source, and the selection state as the class
  `Selection`.

A few behaviours of the code are easy to misread.

- Identity uses `itemId || id`, not `??`, so an empty-string or zero `itemId`
  falls back to `id` (`Products.IdentityPrefersItemId`).
- A slug that spells the colour `spacegray` does not match the known colour
  `"space gray"`, which normalises to `space-gray`. The new colour is then
  appended to the whole slug (`ColorAppendedWhenUnknown`), so
  `iphone-14-pro-64gb-spacegray` with new colour `"Silver"` becomes
  `iphone-14-pro-64gb-spacegray-silver`. A slug that spells the colour
  `space-gray` has it replaced whole (`KnownColorReplacedWhole`).
- The selection resets when the first image, the colour or the capacity
  changes, not when the product object changes (`Selection.Rerender`); a
  different product with the same three values keeps the selection.
- The colour handler returns `""` when `productId` is the empty string as well
  as when it is undefined.

The environment-dependent base URL is a parameter (`BaseUrl(production)` gives
the two values the code chooses between). `JSON.parse` is a parameter
`parse: string -> ParseOutcome`. Storage is the field
`FavouriteStore.persisted`, which holds the last list written.
`FavouriteStore.FavouritesCount()` is the length of the current list, as
`favouritesCount` is (src/store/FavouriteContext.tsx:79); with unique
identities that is the number of distinct identities favourited.

## Model

| member | source | states |
|---|---|---|
| `JsValues.Truthy` | src/store/FavouriteContext.tsx:19 | a value is falsy exactly when it is `undefined`, `""` or `0` |
| `JsValues.Or` | src/store/FavouriteContext.tsx:19 | the JavaScript or of `a` and `b` is truthy exactly when one operand is; it is `a` when `a` is truthy and `b` otherwise |
| `JsValues.ToJsString` | src/store/FavouriteContext.tsx:23 | `String(v)` is `"undefined"` for undefined, the string itself for a string, and for a number a non-empty numeral starting with `-` exactly when it is negative; a truthy value never gives `""` |
| `JsValues.NumberStringsInjective` | src/store/FavouriteContext.tsx:23 | two numbers with the same `String(...)` are equal, so numeric ids compare as numbers would |
| `Products.Identity` | src/store/FavouriteContext.tsx:19-23 | the identity is non-empty when `itemId` or `id` is truthy, and `"undefined"` when both are missing |
| `Products.IdentityPrefersItemId` | src/store/FavouriteContext.tsx:19 | identity is `String(itemId)` when `itemId` is truthy, else `String(id)`; `""`, `0` and undefined fall back |
| `Favourites.Reduce` | src/store/FavouriteContext.tsx:16-39 | an add keeps the old entries as a prefix, grows the list by at most one and leaves the identity present; a remove never grows the list and leaves the identity absent |
| `Favourites.FindByIdentity` | src/store/FavouriteContext.tsx:20-24 | `find` returns nothing exactly when no entry has the identity; otherwise the first entry that has it |
| `Favourites.Without` | src/store/FavouriteContext.tsx:31-35 | `filter` result has no entry with the removed identity, is never longer, and equals the input when no entry matched |
| `Favourites.WithoutMembers` | src/store/FavouriteContext.tsx:31-35 | an entry survives removal exactly when it was in the list with a different identity |
| `Favourites.WithoutConcat` | src/store/FavouriteContext.tsx:31-35 | removal distributes over concatenation, so kept entries stay in their original order |
| `Favourites.WithoutSingleton` | src/store/FavouriteContext.tsx:31-35 | a single entry is kept exactly when its identity differs |
| `Favourites.AddAbsentAppends` | src/store/FavouriteContext.tsx:19-27 | adding a product with a new identity yields the old list followed by `{product, quantity: 1}` |
| `Favourites.AddPresentUnchanged` | src/store/FavouriteContext.tsx:20-28 | adding a product whose identity is present yields the input list |
| `Favourites.AddLength` | src/store/FavouriteContext.tsx:19-28 | adding grows the list by one exactly when the identity was absent |
| `Favourites.AddMakesPresent` | src/store/FavouriteContext.tsx:19-28 | after adding, the product's identity is in the list |
| `Favourites.AddIdempotent` | src/store/FavouriteContext.tsx:19-28 | adding the same product twice equals adding it once |
| `Favourites.AddPreservesUnique` | src/store/FavouriteContext.tsx:19-28 | adding keeps identities pairwise distinct |
| `Favourites.RemoveAbsentUnchanged` | src/store/FavouriteContext.tsx:30-35 | removing an identity no entry has leaves the list unchanged |
| `Favourites.RemoveMakesAbsent` | src/store/FavouriteContext.tsx:30-35 | after removing, no entry has the identity |
| `Favourites.RemovePreservesUnique` | src/store/FavouriteContext.tsx:30-35 | removing keeps identities pairwise distinct |
| `Favourites.RemovePresentLength` | src/store/FavouriteContext.tsx:30-35 | with distinct identities, removing a present identity shortens the list by exactly one |
| `Favourites.ReducePreservesUnique` | src/store/FavouriteContext.tsx:16-39 | both actions keep identities pairwise distinct |
| `Favourites.AddThenRemoveRestores` | src/store/FavouriteContext.tsx:16-35 | adding an absent product and then removing its identity string, as `removeFromFavourite` at lines 73-77 dispatches it, restores the list |
| `Favourites.InitialValue` | src/store/FavouriteContext.tsx:41-50 | an absent or empty stored value gives `[]`; otherwise the parsed list, or the error `Invalid JSON data in localStorage for "favourite"` when parsing fails |
| `Favourites.FavouriteStore.constructor` | src/store/FavouriteContext.tsx:41-67 | when the stored value parses, the provider starts from the initial value computed from it (`[]` when nothing or `""` is stored), and storage holds it; a value that does not parse throws before mounting |
| `Favourites.FavouriteStore.FavouritesCount` | src/store/FavouriteContext.tsx:79 | the count is 0 exactly for an empty list, and with unique identities it is the number of distinct identities |
| `Favourites.UniqueCount` | src/store/FavouriteContext.tsx:79 | a list with pairwise distinct identities has as many entries as identities |
| `Favourites.FavouriteStore.AddToFavourite` | src/store/FavouriteContext.tsx:69-71 | the list becomes the reducer's add result and is written to storage; `favouritesCount` grows by one exactly when the identity was new; the identity is then present; unique identities stay unique |
| `Favourites.FavouriteStore.RemoveFromFavourite` | src/store/FavouriteContext.tsx:73-77 | the list becomes the reducer's removal of the product's identity string and is written to storage; the identity is then absent; the count drops by one when it was present in a unique list; an absent identity leaves the list as it was |
| `JsStrings.Join` | src/components/ProductDescription/ProductDescription.tsx:72 | `join('-')` of n pieces has at least n - 1 characters, one hyphen between each pair |
| `JsStrings.JoinEnds` | src/components/ProductDescription/ProductDescription.tsx:72 | `join('-')` starts with the first piece and, for two or more pieces, ends with `-` and the last piece |
| `JsStrings.Split` | src/components/ProductDescription/ProductDescription.tsx:64 | `split('-')` always yields at least one piece |
| `JsStrings.SplitPiecesHaveNoHyphen` | src/components/ProductDescription/ProductDescription.tsx:64 | no piece of a split contains `-` |
| `JsStrings.JoinSplit` | src/components/ProductDescription/ProductDescription.tsx:64 | `split('-')` then `join('-')` gives the slug back |
| `JsStrings.SplitJoin` | src/components/ProductDescription/ProductDescription.tsx:72 | `join('-')` of hyphen-free pieces then `split('-')` gives the pieces back |
| `JsStrings.SplitAtHyphen` | src/components/ProductDescription/ProductDescription.tsx:64 | splitting `a-b` gives the pieces of `a` followed by the pieces of `b` |
| `JsStrings.JoinConcat` | src/components/ProductDescription/ProductDescription.tsx:72 | joining two non-empty piece lists puts one `-` between their joins |
| `JsStrings.ReplaceWhitespaceRuns` | src/components/ProductDescription/ProductDescription.tsx:62 | `replace(/\s+/g, '-')` leaves no white space and never lengthens the string |
| `JsStrings.ReplaceWithoutWhitespace` | src/components/ProductDescription/ProductDescription.tsx:62 | a string without white space is unchanged |
| `JsStrings.RunBecomesHyphen` | src/components/ProductDescription/ProductDescription.tsx:62 | one maximal white-space run becomes exactly one `-`, and the text on both sides is replaced independently |
| `JsStrings.ToLower` | src/components/ProductDescription/ProductDescription.tsx:62 | lower-casing keeps the length and lower-cases each ASCII letter in place |
| `ProductDescription.NormalizeColor` | src/components/ProductDescription/ProductDescription.tsx:62-63 | a normalised colour has no white space and no upper-case ASCII letter |
| `ProductDescription.KnownColors` | src/components/ProductDescription/ProductDescription.tsx:63 | the known colours are the available colours normalised one by one, in order, each without white space |
| `ProductDescription.ColorIndexFrom` | src/components/ProductDescription/ProductDescription.tsx:66-68 | `findIndex` gives -1 exactly when no segment suffix is a known colour, otherwise the first index whose suffix is |
| `ProductDescription.ChangeProductsColor` | src/components/ProductDescription/ProductDescription.tsx:57-73 | `""` when the colours or the slug are undefined or the slug is empty; otherwise the result is the normalised new colour or ends with `-` and it |
| `ProductDescription.ColorTruncatesAt` | src/components/ProductDescription/ProductDescription.tsx:66-72 | with first matching index `i`, the result is the first `i` segments followed by the new colour, hyphen-joined |
| `ProductDescription.ColorSuffixReplaced` | src/components/ProductDescription/ProductDescription.tsx:63-72 | with first match at `i > 0`, the slug is its first `i` segments, `-`, and the known colour, and the result is those segments, `-`, and the new colour |
| `ProductDescription.WholeSlugColorReplaced` | src/components/ProductDescription/ProductDescription.tsx:66-72 | a slug that is itself a known colour becomes the new colour |
| `ProductDescription.ColorAppendedWhenUnknown` | src/components/ProductDescription/ProductDescription.tsx:70-72 | with no known-colour suffix, the result is the slug, `-`, and the new colour |
| `ProductDescription.SlugSuffixes` | src/components/ProductDescription/ProductDescription.tsx:66-68 | the segment suffixes of `model-colour` that start inside `model` are the model's suffixes followed by `-colour` |
| `ProductDescription.KnownColorReplacedWhole` | src/components/ProductDescription/ProductDescription.tsx:63-72 | a slug `model-colour` whose colour, possibly of several segments, is the longest known suffix becomes `model-` and the new colour |
| `ProductDescription.JoinText` | src/components/ProductDescription/ProductDescription.tsx:77 | `join` writes an undefined element as `""`; the text is empty exactly for an undefined or empty colour |
| `ProductDescription.DropLastTwo` | src/components/ProductDescription/ProductDescription.tsx:76 | `slice(0, -2)` keeps all but the last two segments, or none at all |
| `ProductDescription.ChangeProductsCapacity` | src/components/ProductDescription/ProductDescription.tsx:75-80 | the result ends with the new capacity, `-`, and the selected colour as written (empty when undefined); it is only that when the slug is undefined |
| `ProductDescription.SplitSlug` | src/components/ProductDescription/ProductDescription.tsx:76 | the segments of `model-capacity-colour` are the model's segments, then the capacity, then the colour |
| `ProductDescription.CapacityReplacesLastTwo` | src/components/ProductDescription/ProductDescription.tsx:75-80 | for `model-capacity-colour`, the result is `model-` followed by the new capacity, `-`, and the selected colour |
| `ProductDescription.CapacityOfShortSlug` | src/components/ProductDescription/ProductDescription.tsx:76-77 | a slug of at most two segments contributes no prefix |
| `ProductDescription.SelectedItemId` | src/components/ProductDescription/ProductDescription.tsx:82 | `String(selectedItemId)` is `"undefined"` without a product and the product's identity otherwise |
| `ProductDescription.IsAddedToCart` | src/components/ProductDescription/ProductDescription.tsx:84-88 | true exactly when some cart entry has a product whose identity equals the selected product's identity string |
| `ProductDescription.IsAddedToFavourites` | src/components/ProductDescription/ProductDescription.tsx:90-94 | true exactly when some favourite has the selected product's identity string |
| `ProductDescription.FavouriteToggle` | src/components/ProductDescription/ProductDescription.tsx:272-310 | without a product, no action; for a favourite, removal of its identity; otherwise an add |
| `ProductDescription.ToggleFlipsFavourite` | src/components/ProductDescription/ProductDescription.tsx:272-310 | pressing the favourite button flips whether the product is a favourite |
| `ProductDescription.MainImagePath` | src/components/ProductDescription/ProductDescription.tsx:124-128 | the product's non-empty `image` first, else the non-empty selected image, else `img/page-not-found.png`; never empty |
| `ProductDescription.BaseUrl` | src/components/ProductDescription/ProductDescription.tsx:120-122 | the base URL is empty exactly in a development build and never ends with `/` |
| `ProductDescription.ImageSource` | src/components/ProductDescription/ProductDescription.tsx:124-128 | the source starts with the base URL and `/`, then the product's non-empty `image` if it has one, else the non-empty selected image, else `img/page-not-found.png` |
| `ProductDescription.MainImage` | src/components/ProductDescription/ProductDescription.tsx:31 | `images?.[0]` is defined exactly when the product has a non-empty image list, and is then its first image |
| `ProductDescription.MainColor` | src/components/ProductDescription/ProductDescription.tsx:32 | `selectedProduct?.color` is defined exactly when there is a product with a colour, and is then that colour |
| `ProductDescription.MainCapacity` | src/components/ProductDescription/ProductDescription.tsx:33 | `selectedProduct?.capacity` is defined exactly when there is a product with a capacity, and is then that capacity |
| `ProductDescription.Selection.constructor` | src/components/ProductDescription/ProductDescription.tsx:49-51 | selection starts at the product's first image, colour and capacity |
| `ProductDescription.Selection.Rerender` | src/components/ProductDescription/ProductDescription.tsx:96-100 | when the first image, colour or capacity changes, all three selections reset to them; otherwise nothing changes |
| `ProductDescription.Selection.SelectImage` | src/components/ProductDescription/ProductDescription.tsx:167 | clicking a miniature sets only the selected image, and the main image then shows it, after the base URL and `/`, unless the product has its own `image` |
| `ProductDescription.Selection.ImageLink` | src/components/ProductDescription/ProductDescription.tsx:120-128 | the rendered main image starts with the build's base URL and `/` |
| `ProductDescription.Selection.SelectColor` | src/components/ProductDescription/ProductDescription.tsx:206 | clicking a colour sets only the selected colour, and every capacity link then ends with it |

## Left out

- Storage and JSON: `localStorage.getItem`/`setItem`, `JSON.parse` and
  `JSON.stringify` are foreign calls. The parser is a parameter, and a write is
  the assignment of the list to `persisted`. Serialisation round trips are not
  modelled.
- `Favourites.InitialValue`: a parse that succeeds with a value that is not a
  list of entries (for example `null`) is not modelled; the parse outcome is a
  list or a syntax error.
- Stored data is not checked for unique identities, as in the code. Uniqueness
  is therefore stated as preserved, not as always holding.
- The context's default value (src/store/FavouriteContext.tsx:52-57, with
  `favouritesCount: 0`) and the guard in `useFavouriteValues`
  (lines 102-110) are React context plumbing and are not modelled.
- React hooks (`useReducer`, `useMemo`, `useCallback`, `useEffect`) and render
  timing. `Selection.Rerender` merges a render and its effect into one step, so
  the one render that still shows the old selection is not modelled.
- `JsStrings.ToLower`: only ASCII letters are lower-cased; JavaScript's full
  Unicode case mapping is not modelled.
- `JsValues.JsValue`: numeric ids are integers; floating-point ids, `NaN` and
  `null` are not modelled.
- `JsValues.ToJsString`: numbers are written as exact decimal numerals of any
  size. JavaScript's `String` switches to exponent form from 1e21 and is not
  exact above 2^53, so integer ids are assumed to stay below 2^53.
- The cart store (`src/store/CartStore`) is not part of this model; the cart is
  a list of entries with an optional product. The cart buttons' calls of
  `addToCart`/`removeFromCart` are left out with it.
- JSX, `classNames`, `Link` targets, the route root from `useLocation`, the
  specs lists, `COLOR_TO_SELECT`, the capacity label regex (line 230), and the
  `toLowerCase()` that the capacity link applies before calling the handler
  (line 221) are rendering.
- src/utils/fetchClient.ts (a delayed `fetch`), src/utils/getImageUrl.ts (a
  concatenation with the base URL), Breadcrumbs and the not-found page are I/O
  or markup.
