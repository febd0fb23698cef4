/** The logic of the product description view: the sibling-variant slugs built
    when a colour or a capacity is picked, the "already in cart / favourites"
    predicates, the main image source and the selection state. */
module ProductDescription {
  import opened Wrappers
  import opened JsValues
  import opened JsStrings
  import opened Products
  import opened Favourites
  import opened Sequences

  // ---------------------------------------------------------------------------
  // Colour slug
  // ---------------------------------------------------------------------------

  /** `c.replace(/\s+/g, '-').toLowerCase()`. */
  function NormalizeColor(c: string): (r: string)
    ensures NoWhitespace(r)
    ensures forall i :: 0 <= i < |r| ==> !IsAsciiUpper(r[i])
    ensures |r| <= |c|
  {
    ToLower(ReplaceWhitespaceRuns(c))
  }

  /** `colors.map(...)` with the normalisation above. */
  function KnownColors(colors: seq<string>): (r: seq<string>)
    ensures |r| == |colors|
    ensures forall i :: 0 <= i < |r| ==> r[i] == NormalizeColor(colors[i]) && NoWhitespace(r[i])
  {
    seq(|colors|, i requires 0 <= i < |colors| => NormalizeColor(colors[i]))
  }

  /** `parts.findIndex((_, i) => known.includes(parts.slice(i).join('-')))`,
      searching from index `from`; -1 when no suffix is known. */
  function ColorIndexFrom(parts: seq<string>, known: seq<string>, from: nat): (r: int)
    requires from <= |parts|
    ensures r == -1 || from <= r < |parts|
    ensures r == -1 <==> forall k :: from <= k < |parts| ==> Join(parts[k..]) !in known
    ensures r != -1 ==> Join(parts[r..]) in known
    ensures r != -1 ==> forall k :: from <= k < r ==> Join(parts[k..]) !in known
    decreases |parts| - from
  {
    if from == |parts| then -1
    else if Join(parts[from..]) in known then from
    else ColorIndexFrom(parts, known, from + 1)
  }

  /** `handleChangeProductsColor(newColor)`. */
  function ChangeProductsColor(colors: Option<seq<string>>, productId: Option<string>, newColor: string): (r: string)
    ensures colors.None? || productId.None? || productId == Some("") ==> r == ""
    ensures colors.Some? && productId.Some? && productId.value != "" ==>
              r == NormalizeColor(newColor) || EndsWith(r, "-" + NormalizeColor(newColor))
  {
    if colors.None? || productId.None? || productId.value == "" then ""
    else
      var formatted := NormalizeColor(newColor);
      var parts := Split(productId.value);
      var index := ColorIndexFrom(parts, KnownColors(colors.value), 0);
      var baseParts := if index != -1 then parts[..index] else parts;
      JoinSnocEndsWith(baseParts, formatted);
      Join(baseParts + [formatted])
  }

  /** When the first known colour suffix of the slug starts at segment `i > 0`,
      the result keeps the slug up to that suffix and puts the new colour in its
      place. */
  lemma ColorSuffixReplaced(colors: seq<string>, productId: string, newColor: string, i: nat)
    requires productId != ""
    requires 0 < i < |Split(productId)|
    requires Join(Split(productId)[i..]) in KnownColors(colors)
    requires forall k :: 0 <= k < i ==> Join(Split(productId)[k..]) !in KnownColors(colors)
    ensures productId == Join(Split(productId)[..i]) + "-" + Join(Split(productId)[i..])
    ensures ChangeProductsColor(Some(colors), Some(productId), newColor)
              == Join(Split(productId)[..i]) + "-" + NormalizeColor(newColor)
  {
    ColorTruncatesAt(colors, productId, newColor, i);
    JoinSnoc(Split(productId)[..i], NormalizeColor(newColor));
    SlugAtSegment(productId, i);
  }

  /** A slug is its first `i` segments, a hyphen and the rest. */
  lemma SlugAtSegment(productId: string, i: nat)
    requires 0 < i < |Split(productId)|
    ensures productId == Join(Split(productId)[..i]) + "-" + Join(Split(productId)[i..])
  {
    var parts := Split(productId);
    JoinSplit(productId);
    JoinConcat(parts[..i], parts[i..]);
    assert parts[..i] + parts[i..] == parts;
  }

  /** A slug that is itself a known colour is replaced by the new colour. */
  lemma WholeSlugColorReplaced(colors: seq<string>, productId: string, newColor: string)
    requires productId != ""
    requires productId in KnownColors(colors)
    ensures ChangeProductsColor(Some(colors), Some(productId), newColor) == NormalizeColor(newColor)
  {
    var parts := Split(productId);
    JoinSplit(productId);
    assert parts[0..] == parts;
    ColorTruncatesAt(colors, productId, newColor, 0);
    assert parts[..0] + [NormalizeColor(newColor)] == [NormalizeColor(newColor)];
  }

  /** The colour handler keeps the segments before the first known suffix. */
  lemma ColorTruncatesAt(colors: seq<string>, productId: string, newColor: string, i: nat)
    requires productId != ""
    requires i < |Split(productId)|
    requires Join(Split(productId)[i..]) in KnownColors(colors)
    requires forall k :: 0 <= k < i ==> Join(Split(productId)[k..]) !in KnownColors(colors)
    ensures ChangeProductsColor(Some(colors), Some(productId), newColor)
              == Join(Split(productId)[..i] + [NormalizeColor(newColor)])
  {
    assert ColorIndexFrom(Split(productId), KnownColors(colors), 0) == i;
  }

  /** When no suffix of the slug is a known colour, the new colour is appended
      to the whole slug. */
  lemma ColorAppendedWhenUnknown(colors: seq<string>, productId: string, newColor: string)
    requires productId != ""
    requires forall k :: 0 <= k < |Split(productId)| ==> Join(Split(productId)[k..]) !in KnownColors(colors)
    ensures ChangeProductsColor(Some(colors), Some(productId), newColor)
              == productId + "-" + NormalizeColor(newColor)
  {
    JoinSplit(productId);
    JoinSnoc(Split(productId), NormalizeColor(newColor));
  }

  /** A slug that ends in a known colour, possibly of several segments, gets that
      colour replaced whole, provided no longer suffix is also a known colour. */
  lemma KnownColorReplacedWhole(colors: seq<string>, model: string, color: string, newColor: string)
    requires color in KnownColors(colors)
    requires forall k :: 0 <= k < |Split(model)| ==>
               Join(Split(model)[k..]) + "-" + color !in KnownColors(colors)
    ensures ChangeProductsColor(Some(colors), Some(model + "-" + color), newColor)
              == model + "-" + NormalizeColor(newColor)
  {
    var productId := model + "-" + color;
    var m := Split(model);
    SlugSuffixes(colors, model, color);
    assert Split(productId)[..|m|] == m;
    JoinSplit(model);
    ColorSuffixReplaced(colors, productId, newColor, |m|);
  }

  /** The segment suffixes of `model-colour` that start inside `model` are the
      model's suffixes followed by the colour; the next one is the colour. */
  lemma SlugSuffixes(colors: seq<string>, model: string, color: string)
    requires color in KnownColors(colors)
    requires forall k :: 0 <= k < |Split(model)| ==>
               Join(Split(model)[k..]) + "-" + color !in KnownColors(colors)
    ensures var parts := Split(model + "-" + color);
            |Split(model)| < |parts| && parts[..|Split(model)|] == Split(model)
            && Join(parts[|Split(model)|..]) in KnownColors(colors)
            && forall k :: 0 <= k < |Split(model)| ==> Join(parts[k..]) !in KnownColors(colors)
  {
    var m, c := Split(model), Split(color);
    SplitAtHyphen(model, color);
    var parts := Split(model + "-" + color);
    assert parts == m + c;
    assert parts[|m|..] == c;
    assert parts[..|m|] == m;
    JoinSplit(color);
    forall k | 0 <= k < |m| ensures Join(parts[k..]) !in KnownColors(colors) {
      assert parts[k..] == m[k..] + c;
      JoinConcat(m[k..], c);
    }
  }

  // ---------------------------------------------------------------------------
  // Capacity slug
  // ---------------------------------------------------------------------------

  /** What `Array.prototype.join` writes for an element that may be `undefined`. */
  function JoinText(v: Option<string>): (r: string)
    ensures r == "" <==> v.None? || v == Some("")
    ensures v.Some? ==> r == v.value
  {
    if v.Some? then v.value else ""
  }

  /** `parts.slice(0, -2)`. */
  function DropLastTwo(parts: seq<string>): (r: seq<string>)
    ensures |r| == if |parts| >= 2 then |parts| - 2 else 0
    ensures r == parts[..|r|]
  {
    parts[..if |parts| >= 2 then |parts| - 2 else 0]
  }

  /** `handleChangeProductsCapacity(newCapacity)`, reading the currently selected
      colour. */
  function ChangeProductsCapacity(productId: Option<string>, newCapacity: string, selectedColor: Option<string>): (r: string)
    ensures EndsWith(r, newCapacity + "-" + JoinText(selectedColor))
    ensures productId.None? ==> r == newCapacity + "-" + JoinText(selectedColor)
  {
    var parts := if productId.Some? then DropLastTwo(Split(productId.value)) else [];
    var tail := newCapacity + "-" + JoinText(selectedColor);
    JoinSnoc([newCapacity], JoinText(selectedColor));
    assert [newCapacity] + [JoinText(selectedColor)] == [newCapacity, JoinText(selectedColor)];
    if |parts| > 0 then
      JoinConcat(parts, [newCapacity, JoinText(selectedColor)]);
      assert (Join(parts) + "-" + tail)[|Join(parts) + "-"|..] == tail;
      Join(parts + [newCapacity, JoinText(selectedColor)])
    else
      assert parts + [newCapacity, JoinText(selectedColor)] == [newCapacity, JoinText(selectedColor)];
      Join(parts + [newCapacity, JoinText(selectedColor)])
  }

  /** The segments of a slug `model-capacity-colour` whose last two parts have no hyphen. */
  lemma SplitSlug(model: string, capacity: string, color: string)
    requires '-' !in capacity && '-' !in color
    ensures Split(model + "-" + capacity + "-" + color) == Split(model) + [capacity, color]
  {
    assert model + "-" + capacity + "-" + color == model + "-" + (capacity + "-" + color);
    SplitAtHyphen(model, capacity + "-" + color);
    SplitAtHyphen(capacity, color);
    SplitNoHyphen(capacity);
    SplitNoHyphen(color);
  }

  /** Two trailing segments are joined after the others. */
  lemma JoinTwoAfter(m: seq<string>, x: string, y: string)
    requires |m| >= 1
    ensures Join(m + [x, y]) == Join(m) + "-" + x + "-" + y
  {
    var j := Join(m);
    assert [x, y][1..] == [y];
    calc {
      Join(m + [x, y]);
    == { JoinConcat(m, [x, y]); }
      (j + "-") + (x + "-" + y);
    == { ConcatAssoc(j + "-", x + "-", y); }
      ((j + "-") + (x + "-")) + y;
    == { ConcatAssoc(j + "-", x, "-"); }
      ((j + "-") + x + "-") + y;
    }
  }

  /** The last two segments of a slug (its capacity and colour) are replaced by
      the new capacity and the selected colour; everything before is kept. */
  lemma CapacityReplacesLastTwo(model: string, capacity: string, color: string, newCapacity: string, selectedColor: Option<string>)
    requires '-' !in capacity && '-' !in color
    ensures ChangeProductsCapacity(Some(model + "-" + capacity + "-" + color), newCapacity, selectedColor)
              == model + "-" + newCapacity + "-" + JoinText(selectedColor)
  {
    var productId := model + "-" + capacity + "-" + color;
    var m := Split(model);
    SplitSlug(model, capacity, color);
    assert DropLastTwo(Split(productId)) == m;
    JoinSplit(model);
    JoinTwoAfter(m, newCapacity, JoinText(selectedColor));
  }

  /** A slug of at most two segments contributes nothing. */
  lemma CapacityOfShortSlug(productId: string, newCapacity: string, selectedColor: Option<string>)
    requires |Split(productId)| <= 2
    ensures ChangeProductsCapacity(Some(productId), newCapacity, selectedColor)
              == newCapacity + "-" + JoinText(selectedColor)
  {
    var tail := [newCapacity, JoinText(selectedColor)];
    assert DropLastTwo(Split(productId)) + tail == tail;
    assert tail[1..] == [JoinText(selectedColor)];
    assert Join(tail) == newCapacity + "-" + Join([JoinText(selectedColor)]);
  }

  // ---------------------------------------------------------------------------
  // Membership
  // ---------------------------------------------------------------------------

  /** A cart entry; the cart store itself is not part of this model. */
  datatype CartEntry = CartEntry(product: Option<Product>, quantity: int)

  /** `String(selectedProduct?.itemId || selectedProduct?.id)`. */
  function SelectedItemId(selected: Option<Product>): (r: string)
    ensures selected.None? ==> r == "undefined"
    ensures selected.Some? ==> r == Identity(selected.value)
  {
    match selected
    case None => ToJsString(Undefined)
    case Some(p) => Identity(p)
  }

  /** `cart.some(item => item.product && String(...) === String(selectedItemId))`. */
  function IsAddedToCart(cart: seq<CartEntry>, selected: Option<Product>): (r: bool)
    ensures r <==> exists i :: 0 <= i < |cart| && cart[i].product.Some?
                               && Identity(cart[i].product.value) == SelectedItemId(selected)
  {
    if cart == [] then false
    else
      assert forall i :: 0 < i < |cart| ==> cart[i] == cart[1..][i - 1];
      (cart[0].product.Some? && Identity(cart[0].product.value) == SelectedItemId(selected))
      || IsAddedToCart(cart[1..], selected)
  }

  /** `favourites.some(...)`, with the same test. */
  function IsAddedToFavourites(favourites: seq<FavouriteEntry>, selected: Option<Product>): (r: bool)
    ensures r <==> HasIdentity(favourites, SelectedItemId(selected))
  {
    if favourites == [] then false
    else
      assert forall i :: 0 < i < |favourites| ==> favourites[i] == favourites[1..][i - 1];
      EntryIdentity(favourites[0]) == SelectedItemId(selected)
      || IsAddedToFavourites(favourites[1..], selected)
  }

  /** The action dispatched by the favourite button: remove when the product is
      already a favourite, add otherwise, nothing without a product. */
  function FavouriteToggle(favourites: seq<FavouriteEntry>, selected: Option<Product>): (r: Option<Action>)
    ensures selected.None? <==> r.None?
    ensures selected.Some? && IsAddedToFavourites(favourites, selected) ==>
              r == Some(RemoveFromFavourite(Identity(selected.value)))
    ensures selected.Some? && !IsAddedToFavourites(favourites, selected) ==>
              r == Some(AddToFavourite(selected.value))
  {
    match selected
    case None => None
    case Some(p) =>
      if IsAddedToFavourites(favourites, selected) then Some(RemoveFromFavourite(Identity(p)))
      else Some(AddToFavourite(p))
  }

  /** Pressing the favourite button flips the product's favourite status. */
  lemma ToggleFlipsFavourite(favourites: seq<FavouriteEntry>, p: Product)
    ensures var a := FavouriteToggle(favourites, Some(p));
            a.Some? &&
            IsAddedToFavourites(Reduce(favourites, a.value), Some(p)) == !IsAddedToFavourites(favourites, Some(p))
  {
    if !IsAddedToFavourites(favourites, Some(p)) {
      AddMakesPresent(favourites, p);
    } else {
      RemoveMakesAbsent(favourites, Identity(p));
    }
  }

  // ---------------------------------------------------------------------------
  // Image source
  // ---------------------------------------------------------------------------

  const PageNotFoundImage: string := "img/page-not-found.png"

  /** The base URL: the published site in a production build, empty otherwise.
      It never ends with `/`, so the image source has one `/` before the path. */
  function BaseUrl(production: bool): (r: string)
    ensures r == "" <==> !production
    ensures r == "" || r[|r| - 1] != '/'
  {
    if production then "https://andriana1112.github.io/phone-catalog_react" else ""
  }

  predicate HasText(v: Option<string>)
  {
    v.Some? && v.value != ""
  }

  /** The image path shown large: the product's own `image`, else the selected
      image, else the placeholder. */
  function MainImagePath(selected: Option<Product>, selectedImage: Option<string>): (path: string)
    ensures path != ""
    ensures selected.Some? && HasText(selected.value.image) ==> path == selected.value.image.value
    ensures !(selected.Some? && HasText(selected.value.image)) && HasText(selectedImage) ==>
              path == selectedImage.value
    ensures !(selected.Some? && HasText(selected.value.image)) && !HasText(selectedImage) ==>
              path == PageNotFoundImage
  {
    if selected.Some? && HasText(selected.value.image) then selected.value.image.value
    else if HasText(selectedImage) then selectedImage.value
    else PageNotFoundImage
  }

  /** `imageSrc`: the base URL, `/`, and the product's own image if it has
      one, else the selected image if there is one, else the placeholder. */
  function ImageSource(baseUrl: string, selected: Option<Product>, selectedImage: Option<string>): (src: string)
    ensures |src| > |baseUrl| + 1 && src[..|baseUrl| + 1] == baseUrl + "/"
    ensures selected.Some? && HasText(selected.value.image) ==>
              src == baseUrl + "/" + selected.value.image.value
    ensures !(selected.Some? && HasText(selected.value.image)) && HasText(selectedImage) ==>
              src == baseUrl + "/" + selectedImage.value
    ensures !(selected.Some? && HasText(selected.value.image)) && !HasText(selectedImage) ==>
              src == baseUrl + "/" + PageNotFoundImage
  {
    baseUrl + "/" + MainImagePath(selected, selectedImage)
  }

  // ---------------------------------------------------------------------------
  // Selection state
  // ---------------------------------------------------------------------------

  /** `selectedProduct?.images?.[0]`. */
  function MainImage(selected: Option<Product>): (r: Option<string>)
    ensures r.Some? <==> selected.Some? && selected.value.images.Some? && |selected.value.images.value| > 0
    ensures r.Some? ==> r.value == selected.value.images.value[0]
  {
    if selected.Some? && selected.value.images.Some? && |selected.value.images.value| > 0
    then Some(selected.value.images.value[0])
    else None
  }

  /** `selectedProduct?.color`. */
  function MainColor(selected: Option<Product>): (r: Option<string>)
    ensures r.Some? <==> selected.Some? && selected.value.color.Some?
    ensures r.Some? ==> r == selected.value.color
  {
    if selected.Some? then selected.value.color else None
  }

  /** `selectedProduct?.capacity`. */
  function MainCapacity(selected: Option<Product>): (r: Option<string>)
    ensures r.Some? <==> selected.Some? && selected.value.capacity.Some?
    ensures r.Some? ==> r == selected.value.capacity
  {
    if selected.Some? then selected.value.capacity else None
  }

  /** The view's local state: the selected image, colour and capacity, and the
      main values the reset effect last saw. */
  class Selection {
    var selectedImage: Option<string>
    var selectedColor: Option<string>
    var selectedCapacity: Option<string>
    var seenImage: Option<string>
    var seenColor: Option<string>
    var seenCapacity: Option<string>

    /** The state starts at the product's main values. */
    constructor (selected: Option<Product>)
      ensures selectedImage == MainImage(selected) && seenImage == MainImage(selected)
      ensures selectedColor == MainColor(selected) && seenColor == MainColor(selected)
      ensures selectedCapacity == MainCapacity(selected) && seenCapacity == MainCapacity(selected)
    {
      selectedImage, seenImage := MainImage(selected), MainImage(selected);
      selectedColor, seenColor := MainColor(selected), MainColor(selected);
      selectedCapacity, seenCapacity := MainCapacity(selected), MainCapacity(selected);
    }

    /** A re-render with `selected`, followed by the reset effect: when any main
        value differs from the last one seen, all three selections are reset to
        the main values. */
    method Rerender(selected: Option<Product>)
      modifies this
      ensures seenImage == MainImage(selected) && seenColor == MainColor(selected)
      ensures seenCapacity == MainCapacity(selected)
      ensures (old(seenImage) != MainImage(selected) || old(seenColor) != MainColor(selected)
               || old(seenCapacity) != MainCapacity(selected)) ==>
                selectedImage == MainImage(selected) && selectedColor == MainColor(selected)
                && selectedCapacity == MainCapacity(selected)
      ensures (old(seenImage) == MainImage(selected) && old(seenColor) == MainColor(selected)
               && old(seenCapacity) == MainCapacity(selected)) ==>
                selectedImage == old(selectedImage) && selectedColor == old(selectedColor)
                && selectedCapacity == old(selectedCapacity)
    {
      var image, color, capacity := MainImage(selected), MainColor(selected), MainCapacity(selected);
      if image != seenImage || color != seenColor || capacity != seenCapacity {
        selectedImage, selectedColor, selectedCapacity := image, color, capacity;
        seenImage, seenColor, seenCapacity := image, color, capacity;
      }
    }

    /** Clicking a miniature; the main image then shows it unless the product
        has its own `image`. */
    method SelectImage(image: string)
      modifies this`selectedImage
      ensures selectedImage == Some(image)
      ensures forall production: bool, selected: Option<Product> :: image != "" && !(selected.Some? && HasText(selected.value.image)) ==>
                ImageLink(production, selected) == BaseUrl(production) + "/" + image
    {
      selectedImage := Some(image);
    }

    /** Clicking a colour swatch; from then on every capacity link carries it. */
    method SelectColor(color: string)
      modifies this`selectedColor
      ensures selectedColor == Some(color)
      ensures forall productId, newCapacity :: EndsWith(CapacityLink(productId, newCapacity), newCapacity + "-" + color)
    {
      selectedColor := Some(color);
    }

    /** The capacity link as rendered with the current selection. */
    function CapacityLink(productId: Option<string>, newCapacity: string): string
      reads this
    {
      ChangeProductsCapacity(productId, newCapacity, selectedColor)
    }

    /** The main image as rendered with the current selection, in a
        production or a development build. */
    function ImageLink(production: bool, selected: Option<Product>): (r: string)
      reads this
      ensures |r| > |BaseUrl(production)| + 1 && r[..|BaseUrl(production)| + 1] == BaseUrl(production) + "/"
    {
      ImageSource(BaseUrl(production), selected, selectedImage)
    }
  }
}
