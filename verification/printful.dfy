/** The Printful API service: its configuration test, the request options
    it sends, the transformation of the store's product list into the
    product records the merchandise widget reads, and the cached list
    fetch. The network answer is passed in. */
module Printful {
  import opened Js
  import Base64
  import ApiCache
  import Merchandise

  const KeyPlaceholder: string := "YOUR_PRINTFUL_API_KEY_HERE"
  const ProductsEndpoint: string := "/store/products"

  /** `PRINTFUL_API_CONFIG`; `None` is a missing or `null` entry. */
  datatype Config = Config(
    apiKey: Option<string>,
    storeId: Option<string>,
    baseUrl: Option<string>,
    cacheDuration: int,
    useApi: bool)

  /** The configuration as shipped: placeholder key, API switched off. */
  const ShippedConfig: Config :=
    Config(Some(KeyPlaceholder), None, Some("https://api.printful.com"), ApiCache.DayMillis, false)

  /** `isConfigured()`: the API is switched on, the key is set and is not
      the placeholder, and the base URL is set. */
  predicate IsConfigured(c: Config) {
    c.useApi && Truthy(c.apiKey) && c.apiKey.value != KeyPlaceholder && Truthy(c.baseUrl)
  }

  /** The shipped configuration never reaches the network, and switching
      the API on is not enough while the key is the placeholder. */
  lemma ShippedNotConfigured()
    ensures !IsConfigured(ShippedConfig)
    ensures !IsConfigured(ShippedConfig.(useApi := true))
    ensures IsConfigured(ShippedConfig.(useApi := true, apiKey := Some("k")))
  {
  }

  /** Whatever else a configuration holds, the API switched off, the
      placeholder key or a missing key or base URL keep it unconfigured, and
      an unconfigured service fails every fetch the same way, without using
      the network's answer or touching its cache. */
  lemma UnconfiguredNeverRequests(s: Service, now: int, done: int, r1: Result<Body, string>, r2: Result<Body, string>)
    ensures (|| !s.config.useApi || s.config.apiKey == Some(KeyPlaceholder)
             || !Truthy(s.config.apiKey) || !Truthy(s.config.baseUrl)) ==> !IsConfigured(s.config)
    ensures !IsConfigured(s.config) ==>
      FetchProducts(s, now, done, r1) == FetchProducts(s, now, done, r2) == (Failure(ApiCache.NotConfigured), s)
  {
  }

  // ---------------------------------------------------------------- request

  /** The caller's part of a request: the `method` (here `verb`) and the
      `headers`, when given. */
  datatype RequestOptions = RequestOptions(verb: Option<string>, headers: Option<map<string, string>>)

  /** The method and headers handed to `fetch`. */
  datatype FinalOptions = FinalOptions(verb: string, headers: map<string, string>)

  /** The Basic credentials of section 2 of RFC 7617 with the key as user
      name and an empty password, `btoa` failing on a non-Latin-1 key. */
  function AuthHeader(apiKey: Option<string>): (r: Option<string>)
    ensures r.Some? <==> Base64.IsLatin1(Interpolate(apiKey) + ":")
    ensures r.Some? ==> (StartsWith(r.value, "Basic ")
      && Base64.Decode(r.value[6..]) == Some(Base64.Latin1Bytes(Interpolate(apiKey) + ":")))
    ensures r.Some? ==> r.value == "Basic " + Base64.Encode(Base64.Latin1Bytes(Interpolate(apiKey) + ":"))
  {
    match Base64.Btoa(Interpolate(apiKey) + ":")
    case None => None
    case Some(token) =>
      assert ("Basic " + token)[6..] == token;
      Some("Basic " + token)
  }

  function DefaultHeaders(authorization: string): map<string, string> {
    map["Authorization" := authorization, "Content-Type" := "application/json"]
  }

  /** The options `apiRequest` sends: method GET and the default headers,
      each overridden by the caller's. `None` when `btoa` throws. */
  function Finalize(apiKey: Option<string>, options: RequestOptions): (r: Option<FinalOptions>)
    ensures r.Some? <==> AuthHeader(apiKey).Some?
    ensures r.Some? ==> r.value.verb == (if options.verb.Some? then options.verb.value else "GET")
    ensures r.Some? ==> (r.value.headers.Keys
      == {"Authorization", "Content-Type"} + (if options.headers.Some? then options.headers.value.Keys else {}))
    ensures r.Some? && options.headers.Some? ==>
      forall k :: k in options.headers.value ==> r.value.headers[k] == options.headers.value[k]
    ensures r.Some? && (options.headers.None? || "Authorization" !in options.headers.value) ==>
      r.value.headers["Authorization"] == AuthHeader(apiKey).value
    ensures r.Some? && (options.headers.None? || "Content-Type" !in options.headers.value) ==>
      r.value.headers["Content-Type"] == "application/json"
  {
    match AuthHeader(apiKey)
    case None => None
    case Some(authorization) =>
      var verb := if options.verb.Some? then options.verb.value else "GET";
      var caller := if options.headers.Some? then options.headers.value else map[];
      Some(FinalOptions(verb, DefaultHeaders(authorization) + caller))
  }

  /** The credentials a plain request carries are the base64 text of
      `key:`, which decodes back to it. */
  lemma PlainRequestCarriesKey(key: string)
    requires Base64.IsLatin1(key + ":")
    ensures var r := Finalize(Some(key), RequestOptions(None, None));
      && r.Some?
      && r.value.verb == "GET"
      && StartsWith(r.value.headers["Authorization"], "Basic ")
      && Base64.Decode(r.value.headers["Authorization"][6..]) == Some(Base64.Latin1Bytes(key + ":"))
      && r.value.headers["Authorization"] == "Basic " + Base64.Encode(Base64.Latin1Bytes(key + ":"))
  {
  }

  /** The URL of the product list request. */
  function ProductsUrl(c: Config): (r: string)
    ensures r == Interpolate(c.baseUrl) + ProductsEndpoint
    ensures EndsWith(r, ProductsEndpoint)
  {
    var u := Interpolate(c.baseUrl) + ProductsEndpoint;
    assert u[|u| - |ProductsEndpoint|..] == ProductsEndpoint;
    u
  }

  /** Both branches of the store-id test name the same endpoint: the URL
      does not depend on the store id. */
  lemma ProductsUrlIgnoresStore(c: Config, storeId: Option<string>)
    ensures ProductsUrl(c.(storeId := storeId)) == ProductsUrl(c)
    ensures StartsWith(ProductsUrl(c), Interpolate(c.baseUrl))
  {
  }

  // --------------------------------------------------------- transformation

  datatype RawFile = RawFile(previewUrl: Option<string>)

  /** A sync variant as the API returns it; IDs appear as their text. */
  datatype RawVariant = RawVariant(
    id: Option<string>,
    productId: Option<string>,
    variantId: Option<string>,
    name: Option<string>,
    retailPrice: Option<string>,
    currency: Option<string>,
    size: Option<string>,
    color: Option<string>,
    isAvailable: Option<bool>,
    files: Option<seq<RawFile>>)

  /** The product fields the transformation reads. */
  datatype RawProduct = RawProduct(
    id: Option<string>,
    name: Option<string>,
    thumbnailUrl: Option<string>,
    description: Option<string>)

  /** A list item: either a `sync_product` with its `sync_variants`, or a
      bare product whose own fields are read. */
  datatype RawItem = RawItem(
    syncProduct: Option<RawProduct>,
    fields: RawProduct,
    syncVariants: Option<seq<RawVariant>>)

  /** The `result` member of the response body. */
  datatype Body = NoResult | ListResult(items: seq<RawItem>) | PagedResult(data: Option<seq<RawItem>>)

  /** Only a truthy text survives `x || null`. */
  function Nonempty(o: Option<string>): (r: Option<string>)
    ensures r.Some? <==> Truthy(o)
    ensures r.Some? ==> r == o
  {
    if Truthy(o) then o else None
  }

  /** One variant with the defaults filled in. */
  function TransformVariant(v: RawVariant): (r: Merchandise.Variant)
    ensures r.id == v.id && r.productId == v.productId && r.variantId == v.variantId
    ensures r.name == Some(if Truthy(v.name) then v.name.value else "Default")
    ensures r.retailPrice == Some(if Truthy(v.retailPrice) then v.retailPrice.value else "0.00")
    ensures r.currency == Some(if Truthy(v.currency) then v.currency.value else "USD")
    ensures r.size == (if Truthy(v.size) then v.size else None)
    ensures r.color == (if Truthy(v.color) then v.color else None)
    ensures r.isAvailable <==> v.isAvailable != Some(false)
    ensures r.previewUrl == None
  {
    Merchandise.Variant(
      v.id, v.productId, v.variantId,
      Some(OrDefault(v.name, "Default")),
      Some(OrDefault(v.retailPrice, "0.00")),
      Some(OrDefault(v.currency, "USD")),
      Nonempty(v.size), Nonempty(v.color),
      v.isAvailable != Some(false),
      None)
  }

  function TransformVariants(vs: seq<RawVariant>): (r: seq<Merchandise.Variant>)
    ensures |r| == |vs|
    ensures forall k :: 0 <= k < |vs| ==> r[k] == TransformVariant(vs[k])
  {
    seq(|vs|, k requires 0 <= k < |vs| => TransformVariant(vs[k]))
  }

  /** The preview of the first file of the first variant, when truthy. */
  function FirstPreview(vs: seq<RawVariant>): (r: Option<string>)
    ensures r.Some? <==> (|vs| > 0 && vs[0].files.Some? && |vs[0].files.value| > 0
                         && Truthy(vs[0].files.value[0].previewUrl))
    ensures r.Some? ==> r == vs[0].files.value[0].previewUrl
  {
    if |vs| > 0 && vs[0].files.Some? && |vs[0].files.value| > 0 then Nonempty(vs[0].files.value[0].previewUrl)
    else None
  }

  /** One list item as a product record. */
  function TransformItem(item: RawItem): (r: Merchandise.Product)
    ensures var product := if item.syncProduct.Some? then item.syncProduct.value else item.fields;
      && r.id == (if Truthy(product.id) then product.id else item.fields.id)
      && r.syncProductId == product.id
      && r.name == Some(if Truthy(product.name) then product.name.value else "Unnamed Product")
      && r.description == Some(if Truthy(product.description) then product.description.value else "")
      && (Truthy(product.thumbnailUrl) ==> r.thumbnail == product.thumbnailUrl)
    ensures var raw := if item.syncVariants.Some? then item.syncVariants.value else [];
      && r.variants.Some?
      && |r.variants.value| == |raw|
      && forall k :: 0 <= k < |raw| ==> r.variants.value[k] == TransformVariant(raw[k])
    ensures var product := if item.syncProduct.Some? then item.syncProduct.value else item.fields;
      var raw := if item.syncVariants.Some? then item.syncVariants.value else [];
      !Truthy(product.thumbnailUrl) ==> r.thumbnail == FirstPreview(raw)
    ensures r.thumbnail.Some? ==> Truthy(r.thumbnail)
  {
    var product := if item.syncProduct.Some? then item.syncProduct.value else item.fields;
    var raw := if item.syncVariants.Some? then item.syncVariants.value else [];
    Merchandise.Product(
      OrElse(product.id, item.fields.id),
      Some(OrDefault(product.name, "Unnamed Product")),
      OrElse(Nonempty(product.thumbnailUrl), FirstPreview(raw)),
      Some(TransformVariants(raw)),
      product.id,
      Some(OrDefault(product.description, "")))
  }

  /** The item list of a body: `result.data`, else `result` itself, else
      nothing; `None` when `result` is an object without a `data` list,
      on which `.map` throws. */
  function BodyItems(b: Body): (r: Option<seq<RawItem>>)
    ensures r.None? <==> b == PagedResult(None)
    ensures b.NoResult? ==> r == Some([])
    ensures b.ListResult? ==> r == Some(b.items)
    ensures b.PagedResult? ==> r == b.data
  {
    match b
    case NoResult => Some([])
    case ListResult(items) => Some(items)
    case PagedResult(data) => data
  }

  // ------------------------------------------------------------------ fetch

  /** `PrintfulAPIService`: its configuration and its cache. */
  datatype Service = Service(config: Config, cache: ApiCache.Cache<Merchandise.Product>)

  /** What the product request yields: an error when `btoa` throws or the
      response is an error, a type error for a body without a list, and
      otherwise the transformed list. */
  function RequestProducts(c: Config, response: Result<Body, string>): (r: Result<seq<Merchandise.Product>, string>)
    ensures Finalize(c.apiKey, RequestOptions(None, None)).None? ==> r == Failure("InvalidCharacterError")
    ensures Finalize(c.apiKey, RequestOptions(None, None)).Some? && response.Failure? ==> r == Failure(response.error)
    ensures Finalize(c.apiKey, RequestOptions(None, None)).Some? && response.Success? ==>
      match BodyItems(response.value)
      case None => r == Failure("TypeError")
      case Some(items) => r == Success(Map(TransformItem, items))
  {
    if Finalize(c.apiKey, RequestOptions(None, None)).None? then Failure("InvalidCharacterError")
    else match response
      case Failure(message) => Failure(message)
      case Success(body) =>
        match BodyItems(body)
        case None => Failure("TypeError")
        case Some(items) => Success(Map(TransformItem, items))
  }

  /** `fetchProducts()` started at `now`, its request completing at `done`. */
  function FetchProducts(s: Service, now: int, done: int, response: Result<Body, string>)
    : (r: (Result<seq<Merchandise.Product>, ApiCache.FetchError>, Service))
    ensures r.1.config == s.config
    ensures !IsConfigured(s.config) ==> r == (Failure(ApiCache.NotConfigured), s)
    ensures IsConfigured(s.config) && ApiCache.IsValid(s.cache, now, s.config.cacheDuration) ==>
      r == (Success(s.cache.entries.value), s)
    ensures IsConfigured(s.config) && !ApiCache.IsValid(s.cache, now, s.config.cacheDuration) ==>
      match RequestProducts(s.config, response)
      case Failure(message) => r == (Failure(ApiCache.RequestFailed(message)), s)
      case Success(products) => r == (Success(products), s.(cache := ApiCache.Store(products, done)))
  {
    var o := ApiCache.Fetch(IsConfigured(s.config), s.cache, now, done, s.config.cacheDuration,
                            RequestProducts(s.config, response));
    (o.result, s.(cache := o.cache))
  }

  /** A fetch that reaches the network keeps one product per list item and
      one variant per sync variant. */
  lemma FetchKeepsShape(s: Service, now: int, done: int, items: seq<RawItem>)
    requires IsConfigured(s.config) && !ApiCache.IsValid(s.cache, now, s.config.cacheDuration)
    requires Base64.IsLatin1(s.config.apiKey.value + ":")
    ensures var r := FetchProducts(s, now, done, Success(ListResult(items)));
      && r.0.Success?
      && |r.0.value| == |items|
      && forall k :: 0 <= k < |items| ==>
           |r.0.value[k].variants.value| ==
             (if items[k].syncVariants.Some? then |items[k].syncVariants.value| else 0)
  {
  }

  /** After a successful fetch at a non-zero time, the next fetch within
      the cache duration returns the same products without a request. */
  lemma FetchThenCached(s: Service, now: int, done: int, body: Body, later: int, laterDone: int,
                        second: Result<Body, string>)
    requires done != 0 && done <= later < done + s.config.cacheDuration
    requires IsConfigured(s.config) && !ApiCache.IsValid(s.cache, now, s.config.cacheDuration)
    requires FetchProducts(s, now, done, Success(body)).0.Success?
    ensures var first := FetchProducts(s, now, done, Success(body));
      FetchProducts(first.1, later, laterDone, second) == (first.0, first.1)
  {
  }

  /** A store answering without a `result` yields no products, and that
      empty list is cached like any other: the following fetches within the
      cache duration do not ask again. */
  lemma EmptyStoreIsCached(s: Service, now: int, done: int, later: int, laterDone: int, second: Result<Body, string>)
    requires IsConfigured(s.config) && !ApiCache.IsValid(s.cache, now, s.config.cacheDuration)
    requires Base64.IsLatin1(s.config.apiKey.value + ":")
    requires done != 0 && done <= later < done + s.config.cacheDuration
    ensures var first := FetchProducts(s, now, done, Success(NoResult));
      && first == (Success([]), s.(cache := ApiCache.Store([], done)))
      && FetchProducts(first.1, later, laterDone, second) == first
  {
  }

  /** A product from the Printful list shows its thumbnail or, failing
      that, the first variant's file preview; never a variant preview,
      because transformed variants carry none, and the placeholder only
      when neither exists. */
  lemma PrintfulCardImage(item: RawItem)
    ensures var p := TransformItem(item);
      Merchandise.CardImage(p) == if p.thumbnail.Some? then p.thumbnail.value else Merchandise.PlaceholderImage
  {
    var p := TransformItem(item);
    var primary := Merchandise.PrimaryVariant(p);
    assert primary.Some? ==> primary.value.previewUrl == None;
  }

  /** A transformed variant shows its price unless the API gave none or
      gave zero, and always has a currency. */
  lemma TransformedPrice(v: RawVariant)
    ensures var t := TransformVariant(v);
      (Merchandise.FormatPrice(t.retailPrice, t.currency) == Merchandise.ContactForPrice) <==>
        (!Truthy(v.retailPrice) || v.retailPrice.value == "0.00")
  {
  }

  /** The sizes the widget offers for a transformed product are the truthy
      sizes of the sync variants not marked unavailable. */
  lemma {:induction false} TransformedSizes(vs: seq<RawVariant>)
    ensures forall x :: x in Merchandise.AvailableSizes(TransformVariants(vs)) <==>
      exists k :: 0 <= k < |vs| && vs[k].isAvailable != Some(false) && Truthy(vs[k].size) && vs[k].size.value == x
  {
    var ts := TransformVariants(vs);
    forall x
      ensures x in Merchandise.AvailableSizes(ts) <==>
        exists k :: 0 <= k < |vs| && vs[k].isAvailable != Some(false) && Truthy(vs[k].size) && vs[k].size.value == x
    {
      if x in Merchandise.AvailableSizes(ts) {
        var v :| v in ts && v.isAvailable && Truthy(v.size) && v.size.value == x;
        var k :| 0 <= k < |ts| && ts[k] == v;
        assert vs[k].isAvailable != Some(false) && Truthy(vs[k].size) && vs[k].size.value == x;
      }
      if exists k :: 0 <= k < |vs| && vs[k].isAvailable != Some(false) && Truthy(vs[k].size) && vs[k].size.value == x {
        var k :| 0 <= k < |vs| && vs[k].isAvailable != Some(false) && Truthy(vs[k].size) && vs[k].size.value == x;
        assert ts[k] in ts;
      }
    }
  }
}
