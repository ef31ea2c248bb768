# Locia Farms website — Dafny model of the page logic

This project models the client-side logic of the Locia Farms website:

- the image carousel and the mobile navigation menu of `script.js`, with its
  viewport test;
- the image-path normalisation and data-file fallback list of the goat
  gallery;
- the YouTube id extraction and link building of the video page;
- the merchandise page: size and colour selectors, variant matching, price
  text and checkout links;
- the two API service configurations (Printful and YouTube Data API): the
  "is configured" tests, the one-slot response cache, the request header
  merge with the HTTP Basic credential, and the transformations of API
  responses into the site's product and video records.

Each source file is a module. `Js` holds the JavaScript notions the others
share: nullable strings as `Option<string>`, truthiness, `||` and template
interpolation. `Base64` models `btoa` as RFC 4648 section 4 base64 over
Latin-1 text, as HTTP Basic authentication (section 2 of RFC 7617) uses it.
`SizeOrder` is the comparator the size selector sorts with. `ApiCache` is the
timestamped cache both API services use.

Everything is pure: DOM state becomes immutable records, and clocks and
network responses are parameters.

## Model

| member | source | states |
|---|---|---|
| Navigation.Toggle | script.js:90-93 | toggling flips both the panel and the button state, and a menu whose two classes agree still agrees afterwards |
| Navigation.CloseResets | script.js:90-98 | closing forgets the menu's state: any two menus close alike, a toggle before closing makes no difference, and a toggle after closing opens the menu with panel and button in agreement |
| Navigation.DocumentClickOnlyCloses | script.js:81-87 | a click anywhere on the page never opens the menu, keeps panel and button in agreement, and a second identical click changes nothing more |
| Navigation.Click | script.js:65-88 | a click on the toggle toggles, a link click or an outside click on an open menu closes, a click inside the panel changes nothing, and without both elements no handler is installed |
| Navigation.ToggleTwice | script.js:90-93 | toggling twice restores any menu state |
| Navigation.CloseIdempotent | script.js:95-98 | closing an already closed menu changes nothing |
| Navigation.ClickAll | script.js:65-98 | any sequence of clicks keeps panel and button classes in agreement and never adds or removes elements |
| Navigation.ToggleTwiceFromClosed | script.js:65-93 | two clicks on the toggle reopen and close again, ending closed |
| Utils.InViewportContainment | script.js:41-51 | for a well-formed rectangle, the element is in view exactly when every point of its box lies inside the window, fractional coordinates included |
| Utils.ViewportMonotone | script.js:41-51 | an element in view stays in view when the window grows |
| Carousel.AddPrefetch | script.js:247-265 | a lazily loaded neighbour ends up among the prefetch links, added once at the end and only if not yet present |
| Carousel.AdjacentImages | script.js:247-255 | for a slide within the image list, the images preloaded are those of the next slide and the previous slide, wrapping at both ends |
| Carousel.AdjacentImagesPeriodic | script.js:247-255 | the neighbours are taken modulo the image count, not the slide count: a slide index at or past the image count has the neighbours of its remainder |
| Carousel.AdjacentImagesPastImageCount | script.js:250-252 | slide 4 of a carousel with three images preloads the third and the first image |
| Carousel.Preload | script.js:247-265 | preloading only appends to the existing links, at most two, and does nothing when there are no images |
| Carousel.PreloadLinks | script.js:247-265 | preloading keeps the prefetch list free of duplicates, makes every lazy neighbour's source present, and every new link is a lazy neighbour's source not present before |
| Carousel.Init | script.js:122-144 | a carousel starts only when the track exists and has slides; it starts on slide 0 and preloads its neighbours |
| Carousel.InitShowsFirstSlide | script.js:122-144 | a started carousel shows slide 0: no shift, the first slide active and exactly one slide active |
| Carousel.GoToSlide | script.js:176-182 | an out-of-range index is ignored; an in-range one becomes the current slide and triggers preloading; the images and indicators are left as they were |
| Carousel.GoToSlideIsAdvance | script.js:176-189 | jumping to a slide lands where the matching number of presses of "next" would land |
| Carousel.NextSlide | script.js:184-189 | the next slide is the following one, wrapping from the last to the first; the indicators are kept and the new slide's neighbours are preloaded |
| Carousel.PrevSlide | script.js:191-196 | the previous slide is the preceding one, wrapping from the first to the last; the indicators are kept and the new slide's neighbours are preloaded |
| Carousel.NextPrevInverse | script.js:184-196 | going forward then back, or back then forward, returns to the same slide |
| Carousel.Render | script.js:198-215 | the track is shifted by -100% per slide index; exactly the current slide is marked active; the indicators, when present, mirror the slides |
| Carousel.RenderExactlyOneActive | script.js:198-215 | exactly one slide, and exactly one indicator, is active after an update |
| Carousel.HandleSwipe | script.js:217-226 | a swipe of more than 50 pixels (fractional distances included) to the left advances, more than 50 to the right goes back, anything shorter does nothing |
| Carousel.SwipeRightGoesBack | script.js:217-226 | a 100-pixel rightward swipe goes back; a 30-pixel swipe is ignored |
| Carousel.SwipeThresholdStrict | script.js:217-226 | the threshold is strict: a swipe of exactly 50 pixels is ignored, one of 50.5 advances |
| Carousel.SwipeThereAndBack | script.js:217-226 | from any slide and position, a leftward swipe longer than the threshold followed by the same swipe back returns to the starting slide |
| Carousel.AdvanceIndex | script.js:184-189 | k presses of "next" land on slide (index + k) mod slide count |
| Carousel.FullCycle | script.js:184-189 | as many presses of "next" as there are slides return to the starting slide |
| GoatPaths.NormalizeImagePath | goats/goat-loader.js:117-151 | every normalised image path is absolute, with the site root chosen by whether the host is a GitHub Pages host |
| GoatPaths.RewriteIsAbsolute | goats/goat-loader.js:122-151 | the final repair step never fires, because every branch already yields an http or root-relative path |
| GoatPaths.ParentPrefixReplaced | goats/goat-loader.js:122-130 | a leading `../` is replaced by the site root |
| GoatPaths.RelativePrefixed | goats/goat-loader.js:131-137 | a bare relative path gets the site root prepended |
| GoatPaths.GitHubRootMoved | goats/goat-loader.js:138-141 | on GitHub Pages a root path outside `/website/` is moved under `/website` |
| GoatPaths.AbsoluteKept | goats/goat-loader.js:122-141 | an http(s) URL is left as it is |
| GoatPaths.NormalizeIdempotent | goats/goat-loader.js:117-151 | normalising an already normalised path changes nothing |
| GoatPaths.ProtocolRelativeMovedOnGitHub | goats/goat-loader.js:131-141 | on a GitHub Pages host, a protocol-relative `//host/x` path becomes `/website//host/x` (see Findings) |
| GoatPaths.ProtocolRelativeCounterexample | goats/goat-loader.js:138-141 | on the host `farm.github.io`, `//cdn.example.com/goat.jpg` becomes `/website//cdn.example.com/goat.jpg`, while the corrected normalisation keeps it |
| GoatPaths.NormalizeImagePathCorrected | goats/goat-loader.js:117-151 | the corrected normalisation is absolute, leaves http and protocol-relative URLs alone, and places everything else under the site root |
| GoatPaths.CorrectedIdempotent | goats/goat-loader.js:117-151 | the corrected normalisation is idempotent |
| GoatPaths.CandidatePaths | goats/goat-loader.js:31-51 | the data file is tried first next to the page, then one level up, then under the site root (`/website/` when the page is under it) |
| GoatPaths.CandidatePathsDistinct | goats/goat-loader.js:31-51 | no location is tried twice, and exactly one of the two site-root locations is tried |
| VideoLoader.ExtractVideoId | video-loader.js:136-158 | an empty input gives the empty string; input without `http` or `/` is returned unchanged; otherwise the id after the leftmost URL marker is returned, or the whole input when there is none |
| VideoLoader.PatternCapture | video-loader.js:144-155 | a capture is a nonempty run of id characters, and there is none exactly when no URL marker occurs |
| VideoLoader.ExtractAfterMarker | video-loader.js:144-155 | a URL made of text without the letter `y`, a marker, a clean id and a tail starting with a character outside the id alphabet yields that id |
| VideoLoader.ExtractLeftmost | video-loader.js:144-155 | for any text, the result is the longest run of id characters after the leftmost marker followed by an id character |
| VideoLoader.NoSlashNoMatch | video-loader.js:140-155 | text without a slash contains no URL marker |
| VideoLoader.BareIdUnchanged | video-loader.js:136-142 | a bare id is returned as it is |
| VideoLoader.WatchUrlRoundTrip | video-loader.js:136-158 | the id of a watch link built from a clean id is that id |
| VideoLoader.EmbedUrlRoundTrip | video-loader.js:136-158 | the id of an embed URL built from a clean id is that id |
| VideoLoader.ShortUrlRoundTrip | video-loader.js:136-158 | the id of a youtu.be short link built from a clean id is that id |
| VideoLoader.VideoIdOf | video-loader.js:101 | a video's id comes from its YouTube URL when that is set and from its id field otherwise |
| VideoLoader.WatchLink | video-loader.js:121 | the card links to the stored YouTube URL when set, else to a watch link built from the id |
| VideoLoader.CardLinksAgree | video-loader.js:101-121 | when the id is clean, the embedded player and the watch link both lead back to the same id |
| Js.DataFileResolves | video-loader.js:47-49 | the relative path chosen resolves, from a page inside the section's directory as from a page beside it, to the same data file at the site root (the merchandise page does the same at merchandise-loader.js lines 47-49) |
| SizeOrder.Compare | merchandise-loader.js:212-220 | the comparator is zero only on equal sizes and puts known garment sizes before unknown ones |
| SizeOrder.CompareTransitive | merchandise-loader.js:212-220 | the comparator is transitive |
| SizeOrder.CompareAntisymmetric | merchandise-loader.js:212-220 | the comparator is total and antisymmetric |
| SizeOrder.SortSizes | merchandise-loader.js:212-220 | sorting yields a sorted permutation of its input |
| SizeOrder.SortedUnique | merchandise-loader.js:212-220 | there is only one sorted arrangement of a collection of sizes |
| SizeOrder.SortedLayout | merchandise-loader.js:212-220 | in sorted sizes, known sizes come first in garment order, then unknown sizes in character order |
| Merchandise.KeepFirst | merchandise-loader.js:210 | deduplication keeps exactly the elements of the input, once each, in order of first appearance |
| Merchandise.AvailableSizes | merchandise-loader.js:207-210 | a size is offered exactly when some available variant has it |
| Merchandise.AvailableColors | merchandise-loader.js:226-229 | a colour is offered exactly when some available variant has it |
| Merchandise.UniqueSizes | merchandise-loader.js:205-222 | no variants give no sizes; variants without available sizes give "One Size"; otherwise the offered sizes, once each, in size order |
| Merchandise.UniqueColors | merchandise-loader.js:224-231 | the colours are exactly those offered, once each, in order of first appearance |
| Merchandise.NoDuplicatesPermutation | merchandise-loader.js:210-220 | sorting the deduplicated sizes cannot introduce duplicates |
| Merchandise.FindVariantFrom | merchandise-loader.js:184-188 | the variant found is the first whose size and colour match the selection (a missing selection matches anything), or none when no variant matches |
| Merchandise.FormatPrice | merchandise-loader.js:233-247 | a missing or zero price reads "Contact for Price"; otherwise the amount is kept and the currency defaults to USD |
| Merchandise.CheckoutUrl | merchandise-loader.js:249-261 | the link names the product, and the variant too when the variant has an id |
| Merchandise.CheckoutUrlInjective | merchandise-loader.js:249-261 | two variants with the same checkout link have the same id |
| Merchandise.InitialCard | merchandise-loader.js:100-153 | the card starts as the primary variant's card, showing its formatted price and linking to its checkout; without variants it reads "Contact for Price" and links to the product alone |
| Merchandise.InitialCardMatchesOwnChoice | merchandise-loader.js:100-203 | choosing the primary variant's own size and colour shows exactly the card the page started with |
| Merchandise.OnVariantChange | merchandise-loader.js:173-203 | changing the selection updates price and link to those of the first matching variant, and leaves the card as it was when none matches |
| Merchandise.FirstFitUnique | merchandise-loader.js:184-188 | there is at most one first matching variant |
| Merchandise.SelectorsNeedChoice | merchandise-loader.js:129-145 | a size or colour selector appears only for a product with variants, and offers at least two distinct sizes or colours of available variants |
| Merchandise.CardImage | merchandise-loader.js:108 | the card always has an image: the thumbnail when set, else the primary variant's preview when set, else a placeholder |
| Merchandise.ShownDescription | merchandise-loader.js:126 | a description is shown exactly when one is set, cut to 150 characters plus an ellipsis when longer |
| Js.Truncate | youtube-api-config.js:125 | a text within the limit is kept; a longer one is cut to the limit and ends in `...` |
| Js.TruncateIdempotent | youtube-api-config.js:125 | truncating twice gives the same text as truncating once |
| Js.BeforeFirst | youtube-api-config.js:126 | the date part is the longest prefix without a `T`, and the character after it is the `T` |
| Base64.DecodeEncode | printful-api-config.js:80 | base64 decoding recovers every byte string from its encoding |
| Base64.EncodeLength | printful-api-config.js:80 | the encoding of n bytes has 4 * ceil(n / 3) characters |
| Base64.Btoa | printful-api-config.js:80 | encoding succeeds exactly on Latin-1 text, yields the base64 encoding of the text's bytes, a multiple of four characters long, which decodes back to those bytes |
| Base64.KnownAnswers | printful-api-config.js:80 | the test vectors of section 10 of RFC 4648 (`f`, `fo`, `foo`, `foobar`) encode as that standard gives them, which fixes the alphabet of its Table 1, the bit order and the padding |
| ApiCache.Clear | printful-api-config.js:266-269 | a cleared cache is never valid, so the next fetch of either service (the YouTube `clearCache` is the same) goes to the network |
| ApiCache.Store | printful-api-config.js:164-167 | a stored list is valid from the time of storing until the cache duration has elapsed |
| ApiCache.CacheLifetime | printful-api-config.js:65-71 | a zero stamp is never valid, an empty cached list still counts, validity holds at every earlier time and ends exactly one duration after the stamp |
| ApiCache.Fetch | printful-api-config.js:120-171 | an unconfigured service fails; a valid cache answers without a request; otherwise a failed request fails and leaves the cache alone, and a successful one is returned and stored with the time the request completed |
| ApiCache.SecondFetchServedFromCache | printful-api-config.js:126-167 | a fetch started within the cache duration after a successful one completed returns that fetch's list whatever the network would answer |
| ApiCache.ClearForcesRequest | printful-api-config.js:266-269 | after clearing, a fetch always uses the network |
| Printful.ShippedNotConfigured | printful-api-config.js:19-60 | the shipped configuration is not usable: the API is switched off and the key is the placeholder |
| Printful.UnconfiguredNeverRequests | printful-api-config.js:55-60 | for every configuration, the API switched off, the placeholder key or a missing key or base URL make it unconfigured, and then every fetch fails alike whatever the network would answer, leaving the cache alone |
| Printful.AuthHeader | printful-api-config.js:80 | the credential is `Basic ` followed by the base64 encoding of `key:` (which decodes back to it), and exists exactly when that text is Latin-1 |
| Printful.Finalize | printful-api-config.js:77-98 | the method defaults to GET; the headers are the defaults together with the caller's, the caller's winning on a clash |
| Printful.PlainRequestCarriesKey | printful-api-config.js:77-98 | a request without options is a GET whose credential is `Basic ` and the base64 encoding of `key:`, with a JSON content type |
| Printful.ProductsUrl | printful-api-config.js:132-136 | the products request goes to the base URL followed by the `/store/products` endpoint |
| Printful.ProductsUrlIgnoresStore | printful-api-config.js:132-136 | the store id makes no difference to the URL, which always starts with the base URL |
| Printful.TransformVariant | printful-api-config.js:147-157 | a variant keeps its ids, gets the defaults "Default", 0.00 and USD, drops empty sizes and colours, and is available unless explicitly not |
| Printful.TransformItem | printful-api-config.js:139-161 | a product takes its fields from the sync product when present, its thumbnail from the first variant's first file preview when it has none, and one variant per raw variant |
| Printful.FirstPreview | printful-api-config.js:146 | the fallback thumbnail exists exactly when the first variant has a first file with a preview, and is that preview |
| Printful.PrintfulCardImage | printful-api-config.js:139-161 | a Printful product's card shows its thumbnail, itself falling back to the first file preview, and the placeholder only when neither exists |
| Printful.BodyItems | printful-api-config.js:139 | the item list is `result.data` when set, else `result` itself, else empty; a paged result without data has no list |
| Printful.EmptyStoreIsCached | printful-api-config.js:139-167 | a response without a result gives an empty product list, which is cached and answers the following fetches within the cache duration |
| Printful.RequestProducts | printful-api-config.js:77-161 | a key that cannot be encoded fails before any request, a failed response fails with its message, and a paged result without data fails on the missing list |
| Printful.FetchProducts | printful-api-config.js:120-171 | the products fetch follows the cache protocol: unconfigured fails, a valid cache answers, else the request result is returned and stored on success |
| Printful.FetchKeepsShape | printful-api-config.js:139-161 | a successful fetch returns one product per item received |
| Printful.FetchThenCached | printful-api-config.js:126-167 | a second products fetch within the cache duration returns the first one's list |
| Printful.TransformedPrice | printful-api-config.js:147-157 | a transformed variant without a price shows "Contact for Price", and one without a currency shows USD |
| Printful.TransformedSizes | printful-api-config.js:147-157 | the sizes offered for transformed variants are those of the raw variants not marked unavailable |
| YouTube.ShippedNotConfigured | youtube-api-config.js:11-50 | the shipped configuration is not usable, and both the key and the channel must be set |
| YouTube.UnconfiguredNeverRequests | youtube-api-config.js:44-50 | for every configuration, the API switched off, either placeholder or a missing key or channel make it unconfigured, and then every fetch fails alike whatever the network would answer, leaving the cache alone |
| YouTube.ChannelId | youtube-api-config.js:66-84 | a channel id starting with `UC` is used as it is; otherwise the lookup result is used when there is one |
| YouTube.ChannelIdNeedsNoLookup | youtube-api-config.js:66-84 | for a `UC` id the lookup makes no difference |
| YouTube.TransformItem | youtube-api-config.js:122-129 | a video keeps id and title, has its description cut to 200 characters, its date cut at the `T`, the high thumbnail or else the default one, and a watch link to its id |
| YouTube.TransformedVideoRoundTrip | youtube-api-config.js:122-129 | a video built from a search result with a clean id shows that id in its player and links to its watch page |
| YouTube.RequestVideos | youtube-api-config.js:114-129 | a failed response fails with its message and a paged result without data fails on the missing list |
| YouTube.FetchVideos | youtube-api-config.js:89-140 | the videos fetch follows the cache protocol |
| YouTube.FetchThenCached | youtube-api-config.js:95-133 | a second videos fetch within the cache duration returns the first one's list |
| YouTube.FetchedVideosEmbedTheirIds | youtube-api-config.js:89-140 | every fetched video with a clean id is shown with that id |

## Left out

- Timers, auto-play, hover pausing, keyboard navigation, scroll debouncing and
  intersection observers in `script.js`: they are scheduling around the
  modelled state changes, not state changes of their own.
- The network: every `fetch` outcome is an input (`Result`). The retry loop
  over candidate data paths in the goat gallery is the list of candidates
  only.
- DOM rendering (HTML strings, `escapeHtml`, date formatting with `toLocale…`)
  and analytics calls.
- Merchandise.FormatPrice: does not model the `parseFloat`/`NaN` check or the
  `Intl.NumberFormat` text; a price is kept as its text, and the zero test is
  on the text "0.00".
- SizeOrder.Compare: `localeCompare` is replaced by comparison of characters
  (Unicode scalar values), because locale collation is host-dependent; this
  is also UTF-16 code-unit order only for text without characters outside
  the Basic Multilingual Plane.
- Js.Truncate: counts Unicode scalar values where JavaScript's `length` and
  `substring` count UTF-16 code units; the two agree on text within the
  Basic Multilingual Plane (`Js.Bmp`, `Js.Utf16Length`), and a cut inside a
  surrogate pair cannot be expressed.
- Merchandise.ShownDescription: the 150-character limit counts Unicode
  scalar values, not UTF-16 code units (see Js.Truncate).
- YouTube.TransformItem: the 200-character limit on descriptions counts
  Unicode scalar values, not UTF-16 code units (see Js.Truncate).
- ApiCache.Fetch: overlapping fetches are not modelled; each fetch sees the
  cache as the previous one left it, its request completing (at `done`)
  before the next fetch starts, whereas a fetch started while a request is
  in flight finds no cache and makes a request of its own.
- Merchandise.OnVariantChange: requires a variant list, because the selectors
  that trigger it are only rendered when there are variants
  (Merchandise.SelectorsNeedChoice).
- Printful.RequestProducts: the JSON request body of `apiRequest` is not
  modelled; the products request has none.
- `fetchProduct`, `getProductVariants`, `createProduct`, `updateProduct` and
  the service's `getCheckoutUrl` (printful-api-config.js:176-279) are not
  used by the pages and are not part of this model.
- YouTube.FetchVideos: the search URL and its `maxResults` parameter are not
  modelled.
- YouTube.ChannelId: the channel lookup request is not modelled; its result
  is an input.
- YouTube.TransformItem: a search result always has a description, a
  publication date and a thumbnails object, so the `TypeError` a snippet
  missing one of them raises (youtube-api-config.js:125-127) is not
  modelled.
- Numeric ids from the APIs appear as their decimal text.
- Js.Interpolate: an absent value is `undefined`; a JSON `null` field, which
  template interpolation spells `null` (as in a checkout link built from a
  `null` id), is not distinguished from an absent one.
- Printful.ProductsUrl: both branches of the store-id test reach the same
  endpoint, so the store id is not part of the URL.
- `analytics-config.js` is not part of this model.

Where the swipe tests in `tests/carousel.test.js` (lines 54-62) expect the
opposite direction, the model follows `script.js`: a leftward swipe of more
than 50 pixels advances.

## Findings

| source | as written | input that shows it | evidently intended | confidence | as-written member | corrected member |
|---|---|---|---|---|---|---|
| goats/goat-loader.js:138-141 | on a GitHub Pages host every path starting with `/` outside `/website/` is moved under `/website` | host `farm.github.io`, image `//cdn.example.com/goat.jpg` becomes `/website//cdn.example.com/goat.jpg` (GoatPaths.ProtocolRelativeCounterexample) | protocol-relative URLs, like http URLs, are left unchanged | not executed | GoatPaths.ProtocolRelativeMovedOnGitHub | GoatPaths.NormalizeImagePathCorrected |
