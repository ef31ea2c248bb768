/** The merchandise widget: the size and colour choices of a product, the
    variant a choice selects, the price text, the shortened description and
    the checkout link of a product card, and the fallback product list. */
module Merchandise {
  import opened Js
  import SizeOrder

  /** A product variant as the widget reads it, from the Printful API or
      from the fallback product list. */
  datatype Variant = Variant(
    id: Option<string>,
    productId: Option<string>,
    variantId: Option<string>,
    name: Option<string>,
    retailPrice: Option<string>,
    currency: Option<string>,
    size: Option<string>,
    color: Option<string>,
    isAvailable: bool,
    previewUrl: Option<string>)

  datatype Product = Product(
    id: Option<string>,
    name: Option<string>,
    thumbnail: Option<string>,
    variants: Option<seq<Variant>>,
    syncProductId: Option<string>,
    description: Option<string>)

  /** The price text of a card: the placeholder, or a price and currency
      for the browser's currency formatter. */
  datatype PriceText = ContactForPrice | Formatted(amount: string, currency: string)

  const StoreUrl: string := "https://www.printful.com/store/locia-farms"
  const OneSize: string := "One Size"
  const PlaceholderImage: string := "images/placeholder-product.jpg"
  const DescriptionLimit: nat := 150

  /** `s.indexOf(x)`: the first position of `x`, or -1. */
  function IndexOf<T(==)>(s: seq<T>, x: T): (r: int)
    ensures -1 <= r < |s|
    ensures r >= 0 ==> s[r] == x && forall k :: 0 <= k < r ==> s[k] != x
    ensures r == -1 <==> x !in s
  {
    if |s| == 0 then -1
    else if s[0] == x then 0
    else
      var r := IndexOf(s[1..], x);
      assert forall k :: 0 < k < |s| ==> s[k] == s[1..][k - 1];
      if r == -1 then -1 else r + 1
  }

  /** `s.slice(from).filter((x, i) => s.indexOf(x) === i)`: the elements
      from position `from` on that occur there for the first time. */
  function KeepFirstFrom(s: seq<string>, from: nat): (r: seq<string>)
    requires from <= |s|
    ensures forall x :: x in r <==> x in s && IndexOf(s, x) >= from
    ensures forall a, b :: 0 <= a < b < |r| ==> IndexOf(s, r[a]) < IndexOf(s, r[b])
    decreases |s| - from
  {
    if from == |s| then []
    else
      var rest := KeepFirstFrom(s, from + 1);
      if IndexOf(s, s[from]) == from then [s[from]] + rest else rest
  }

  /** The JavaScript idiom for removing duplicates: every element once, in
      the order of first occurrence. */
  function KeepFirst(s: seq<string>): (r: seq<string>)
    ensures forall x :: x in r <==> x in s
    ensures NoDuplicates(r)
    ensures forall a, b :: 0 <= a < b < |r| ==> IndexOf(s, r[a]) < IndexOf(s, r[b])
  {
    KeepFirstFrom(s, 0)
  }

  /** Sizes of the available variants that have a size, in variant order. */
  function AvailableSizes(vs: seq<Variant>): (r: seq<string>)
    ensures forall x :: x in r <==> exists v :: v in vs && v.isAvailable && Truthy(v.size) && v.size.value == x
    decreases |vs|
  {
    if |vs| == 0 then []
    else
      var v := vs[0];
      var rest := AvailableSizes(vs[1..]);
      assert forall w :: w in vs <==> w == v || w in vs[1..];
      if Truthy(v.size) && v.isAvailable then [v.size.value] + rest else rest
  }

  /** Colours of the available variants that have a colour, in variant order. */
  function AvailableColors(vs: seq<Variant>): (r: seq<string>)
    ensures forall x :: x in r <==> exists v :: v in vs && v.isAvailable && Truthy(v.color) && v.color.value == x
    decreases |vs|
  {
    if |vs| == 0 then []
    else
      var v := vs[0];
      var rest := AvailableColors(vs[1..]);
      assert forall w :: w in vs <==> w == v || w in vs[1..];
      if Truthy(v.color) && v.isAvailable then [v.color.value] + rest else rest
  }

  /** A duplicate-free sequence holds every value at most once. */
  lemma {:induction false} NoDuplicatesMultiplicity<T>(s: seq<T>, x: T)
    requires NoDuplicates(s)
    ensures multiset(s)[x] <= 1
    decreases |s|
  {
    if |s| > 0 {
      assert s == [s[0]] + s[1..];
      NoDuplicatesMultiplicity(s[1..], x);
      if s[0] == x {
        assert x !in s[1..];
      }
    }
  }

  /** A rearrangement of a duplicate-free sequence is duplicate-free. */
  lemma NoDuplicatesPermutation<T>(a: seq<T>, b: seq<T>)
    requires NoDuplicates(a) && multiset(a) == multiset(b)
    ensures NoDuplicates(b)
  {
    forall i, j | 0 <= i < j < |b|
      ensures b[i] != b[j]
    {
      NoDuplicatesMultiplicity(a, b[i]);
      assert b == b[..j] + b[j..];
      assert b[i] in b[..j] && b[j] in b[j..];
      assert multiset(b)[b[i]] == multiset(b[..j])[b[i]] + multiset(b[j..])[b[i]];
    }
  }

  /** `getUniqueSizes`: nothing for missing or empty variants; otherwise the
      distinct sizes of the available variants in size order, or the single
      entry "One Size" when no available variant has a size. */
  function UniqueSizes(variants: Option<seq<Variant>>): (r: seq<string>)
    ensures variants.None? || |variants.value| == 0 ==> r == []
    ensures variants.Some? && |variants.value| > 0 ==> |r| > 0
    ensures variants.Some? && |variants.value| > 0 && |AvailableSizes(variants.value)| == 0 ==> r == [OneSize]
    ensures variants.Some? && |variants.value| > 0 && |AvailableSizes(variants.value)| > 0 ==>
              && (forall x :: x in r <==> x in AvailableSizes(variants.value))
              && NoDuplicates(r)
              && SizeOrder.Sorted(r)
  {
    if variants.None? || |variants.value| == 0 then []
    else
      var distinct := KeepFirst(AvailableSizes(variants.value));
      var sizes := SizeOrder.SortSizes(distinct);
      NoDuplicatesPermutation(distinct, sizes);
      assert forall x :: x in sizes <==> x in multiset(distinct);
      assert |distinct| > 0 <==> |AvailableSizes(variants.value)| > 0 by {
        if |AvailableSizes(variants.value)| > 0 { assert AvailableSizes(variants.value)[0] in distinct; }
      }
      assert |sizes| == |multiset(distinct)| == |distinct|;
      if |sizes| > 0 then sizes else [OneSize]
  }

  /** `getUniqueColors`: nothing for missing or empty variants; otherwise the
      distinct colours of the available variants, in order of first occurrence. */
  function UniqueColors(variants: Option<seq<Variant>>): (r: seq<string>)
    ensures variants.None? || |variants.value| == 0 ==> r == []
    ensures variants.Some? ==> forall x :: x in r <==> x in AvailableColors(variants.value)
    ensures NoDuplicates(r)
    ensures variants.Some? ==> forall a, b :: 0 <= a < b < |r| ==>
              IndexOf(AvailableColors(variants.value), r[a]) < IndexOf(AvailableColors(variants.value), r[b])
  {
    if variants.None? || |variants.value| == 0 then []
    else KeepFirst(AvailableColors(variants.value))
  }

  /** The size and colour selectors show only when there is a choice. */
  function ShowsSizeSelector(p: Product): bool {
    |UniqueSizes(p.variants)| > 1
  }

  function ShowsColorSelector(p: Product): bool {
    |UniqueColors(p.variants)| > 1
  }

  /** A selector is shown only for a real choice: a product with a size
      (colour) selector has variants, and its first two options are
      distinct sizes (colours) of available variants. Hence a selection
      change, which only a selector triggers, always has variants. */
  lemma SelectorsNeedChoice(p: Product)
    ensures ShowsSizeSelector(p) || ShowsColorSelector(p) ==> p.variants.Some? && |p.variants.value| > 0
    ensures ShowsSizeSelector(p) ==>
      var sizes := UniqueSizes(p.variants);
      && sizes[0] != sizes[1]
      && sizes[0] in AvailableSizes(p.variants.value) && sizes[1] in AvailableSizes(p.variants.value)
    ensures ShowsColorSelector(p) ==>
      var colors := UniqueColors(p.variants);
      && colors[0] != colors[1]
      && colors[0] in AvailableColors(p.variants.value) && colors[1] in AvailableColors(p.variants.value)
  {
  }

  /** A variant fits the chosen size and colour (an unchosen one matches
      anything) and is available. */
  predicate Fits(v: Variant, selectedSize: Option<string>, selectedColor: Option<string>) {
    && (!Truthy(selectedSize) || v.size == selectedSize)
    && (!Truthy(selectedColor) || v.color == selectedColor)
    && v.isAvailable
  }

  /** `variants.find(...)` from position `from`: the position of the first
      fitting variant. */
  function FindVariantFrom(vs: seq<Variant>, selectedSize: Option<string>, selectedColor: Option<string>, from: nat)
    : (r: Option<nat>)
    requires from <= |vs|
    ensures r.Some? ==> from <= r.value < |vs| && Fits(vs[r.value], selectedSize, selectedColor)
    ensures r.Some? ==> forall j :: from <= j < r.value ==> !Fits(vs[j], selectedSize, selectedColor)
    ensures r.None? ==> forall j :: from <= j < |vs| ==> !Fits(vs[j], selectedSize, selectedColor)
    decreases |vs| - from
  {
    if from == |vs| then None
    else if Fits(vs[from], selectedSize, selectedColor) then Some(from)
    else FindVariantFrom(vs, selectedSize, selectedColor, from + 1)
  }

  /** `formatPrice`: a missing, empty or `0.00` price shows the placeholder;
      any other price is handed to the formatter with its currency, US
      dollars by default. */
  function FormatPrice(price: Option<string>, currency: Option<string>): (r: PriceText)
    ensures r == ContactForPrice <==> !Truthy(price) || price.value == "0.00"
    ensures r.Formatted? ==> r.amount == price.value && r.currency != ""
    ensures r.Formatted? ==> (Truthy(currency) ==> r.currency == currency.value) && (!Truthy(currency) ==> r.currency == "USD")
  {
    if !Truthy(price) || price.value == "0.00" then ContactForPrice
    else Formatted(price.value, OrDefault(currency, "USD"))
  }

  /** `getCheckoutUrl`: the store URL with the product, and with the variant
      when the variant has an ID. */
  function CheckoutUrl(p: Product, variant: Option<Variant>): (r: string)
    ensures StartsWith(r, StoreUrl + "?product=" + Interpolate(p.id))
    ensures variant.Some? && Truthy(variant.value.id) ==>
              r == StoreUrl + "?product=" + Interpolate(p.id) + "&variant=" + variant.value.id.value
    ensures !(variant.Some? && Truthy(variant.value.id)) ==> r == StoreUrl + "?product=" + Interpolate(p.id)
  {
    var base := StoreUrl + "?product=" + Interpolate(p.id);
    if variant.Some? && Truthy(variant.value.id) then
      assert (base + "&variant=" + variant.value.id.value)[..|base|] == base;
      base + "&variant=" + variant.value.id.value
    else base
  }

  /** Two variants with IDs get the same checkout link only when the IDs agree. */
  lemma CheckoutUrlInjective(p: Product, v: Variant, w: Variant)
    requires Truthy(v.id) && Truthy(w.id)
    requires CheckoutUrl(p, Some(v)) == CheckoutUrl(p, Some(w))
    ensures v.id == w.id
  {
    var prefix := StoreUrl + "?product=" + Interpolate(p.id) + "&variant=";
    assert CheckoutUrl(p, Some(v)) == prefix + v.id.value;
    assert CheckoutUrl(p, Some(w)) == prefix + w.id.value;
    assert v.id.value == (prefix + v.id.value)[|prefix|..];
    assert w.id.value == (prefix + w.id.value)[|prefix|..];
  }

  /** What a product card shows and links to. */
  datatype Card = Card(price: PriceText, buyLink: string)

  /** The first variant, which sets the initial price, image and link. */
  function PrimaryVariant(p: Product): (r: Option<Variant>)
    ensures r.Some? <==> p.variants.Some? && |p.variants.value| > 0
    ensures r.Some? ==> r.value == p.variants.value[0]
  {
    if p.variants.Some? && |p.variants.value| > 0 then Some(p.variants.value[0]) else None
  }

  /** The card as first rendered: the primary variant's price, or the
      placeholder when there is no variant, and the matching checkout link. */
  function InitialCard(p: Product): (r: Card)
    ensures r.price == ContactForPrice <==>
              (PrimaryVariant(p).None? || !Truthy(PrimaryVariant(p).value.retailPrice)
               || PrimaryVariant(p).value.retailPrice.value == "0.00")
    ensures PrimaryVariant(p).Some? ==> r == VariantCard(p, PrimaryVariant(p).value)
    ensures PrimaryVariant(p).None? ==> r.price == ContactForPrice && r.buyLink == StoreUrl + "?product=" + Interpolate(p.id)
  {
    var primary := PrimaryVariant(p);
    var price := if primary.Some? then FormatPrice(primary.value.retailPrice, primary.value.currency) else ContactForPrice;
    Card(price, CheckoutUrl(p, primary))
  }

  /** The selector value that picks a variant's own size or colour: the
      value when it is a nonempty string, otherwise no choice. */
  function OwnChoice(o: Option<string>): Option<string> {
    if Truthy(o) then o else None
  }

  /** Choosing the primary variant's own size and colour, when that variant
      is available, shows the same price and link as the first rendering:
      the initial card and the change handler agree. */
  lemma InitialCardMatchesOwnChoice(card: Card, p: Product)
    requires p.variants.Some? && |p.variants.value| > 0 && p.variants.value[0].isAvailable
    ensures var v := p.variants.value[0];
      OnVariantChange(card, p, OwnChoice(v.size), OwnChoice(v.color)) == InitialCard(p)
  {
    var v := p.variants.value[0];
    assert FirstFit(p.variants.value, 0, OwnChoice(v.size), OwnChoice(v.color));
  }

  /** Position `i` holds the first variant that fits the choice. */
  predicate FirstFit(vs: seq<Variant>, i: int, selectedSize: Option<string>, selectedColor: Option<string>) {
    && 0 <= i < |vs|
    && Fits(vs[i], selectedSize, selectedColor)
    && forall j :: 0 <= j < i ==> !Fits(vs[j], selectedSize, selectedColor)
  }

  /** There is only one first fitting variant. */
  lemma FirstFitUnique(vs: seq<Variant>, i: int, k: int, selectedSize: Option<string>, selectedColor: Option<string>)
    requires FirstFit(vs, i, selectedSize, selectedColor) && FirstFit(vs, k, selectedSize, selectedColor)
    ensures i == k
  {
  }

  /** The price and link a card shows for variant `v`. */
  function VariantCard(p: Product, v: Variant): Card {
    Card(FormatPrice(v.retailPrice, v.currency), CheckoutUrl(p, Some(v)))
  }

  /** The change handler of the selectors: the first available variant that
      fits the chosen size and colour sets the price and the link; with no
      such variant the card is left as it was. Selectors exist only for
      products with variants. */
  function OnVariantChange(card: Card, p: Product, selectedSize: Option<string>, selectedColor: Option<string>)
    : (r: Card)
    requires p.variants.Some?
    ensures (forall j :: 0 <= j < |p.variants.value| ==> !Fits(p.variants.value[j], selectedSize, selectedColor))
            ==> r == card
    ensures forall i :: FirstFit(p.variants.value, i, selectedSize, selectedColor)
                        ==> r == VariantCard(p, p.variants.value[i])
  {
    var vs := p.variants.value;
    match FindVariantFrom(vs, selectedSize, selectedColor, 0)
    case None => card
    case Some(k) =>
      assert FirstFit(vs, k, selectedSize, selectedColor);
      assert forall i :: FirstFit(vs, i, selectedSize, selectedColor) ==> i == k by {
        forall i | FirstFit(vs, i, selectedSize, selectedColor) ensures i == k {
          FirstFitUnique(vs, i, k, selectedSize, selectedColor);
        }
      }
      VariantCard(p, vs[k])
  }

  /** The card image: the thumbnail, else the primary variant's preview,
      else the placeholder picture. */
  function CardImage(p: Product): (r: string)
    ensures r != ""
    ensures Truthy(p.thumbnail) ==> r == p.thumbnail.value
    ensures !Truthy(p.thumbnail) && PrimaryVariant(p).Some? && Truthy(PrimaryVariant(p).value.previewUrl)
            ==> r == PrimaryVariant(p).value.previewUrl.value
    ensures !Truthy(p.thumbnail) && !(PrimaryVariant(p).Some? && Truthy(PrimaryVariant(p).value.previewUrl))
            ==> r == PlaceholderImage
  {
    var preview := if PrimaryVariant(p).Some? then PrimaryVariant(p).value.previewUrl else None;
    OrDefault(OrElse(p.thumbnail, preview), PlaceholderImage)
  }

  /** The description paragraph: absent for an empty description, otherwise
      its first 150 characters, with `...` when it was longer. */
  function ShownDescription(p: Product): (r: Option<string>)
    ensures r.Some? <==> Truthy(p.description)
    ensures r.Some? && |p.description.value| <= DescriptionLimit ==> r.value == p.description.value
    ensures r.Some? && |p.description.value| > DescriptionLimit ==>
              |r.value| == DescriptionLimit + 3 && r.value[..DescriptionLimit] == p.description.value[..DescriptionLimit]
              && EndsWith(r.value, "...")
  {
    if Truthy(p.description) then Some(Truncate(p.description.value, DescriptionLimit)) else None
  }
}
