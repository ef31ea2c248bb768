/** The YouTube Data API service: its configuration test, the channel
    name short-circuit, the transformation of search results into video
    records, and the cached video fetch. Network answers are passed in. */
module YouTube {
  import opened Js
  import ApiCache
  import VideoLoader

  const KeyPlaceholder: string := "YOUR_YOUTUBE_API_KEY_HERE"
  const ChannelPlaceholder: string := "YOUR_CHANNEL_ID_OR_USERNAME"
  const DescriptionLimit: nat := 200

  /** `YOUTUBE_API_CONFIG`; `None` is a missing or `null` entry. */
  datatype Config = Config(
    apiKey: Option<string>,
    channelId: Option<string>,
    maxResults: int,
    cacheDuration: int,
    useApi: bool)

  /** The configuration as shipped: placeholders, API switched off. */
  const ShippedConfig: Config :=
    Config(Some(KeyPlaceholder), Some(ChannelPlaceholder), 12, ApiCache.DayMillis, false)

  /** `isConfigured()`: the API is switched on, and key and channel are set
      and are not their placeholders. */
  predicate IsConfigured(c: Config) {
    && c.useApi
    && Truthy(c.apiKey) && c.apiKey.value != KeyPlaceholder
    && Truthy(c.channelId) && c.channelId.value != ChannelPlaceholder
  }

  /** The shipped configuration never reaches the network, even with the
      API switched on, until both placeholders are replaced. */
  lemma ShippedNotConfigured()
    ensures !IsConfigured(ShippedConfig)
    ensures !IsConfigured(ShippedConfig.(useApi := true))
    ensures !IsConfigured(ShippedConfig.(useApi := true, apiKey := Some("k")))
    ensures !IsConfigured(ShippedConfig.(useApi := true, channelId := Some("UCx")))
    ensures IsConfigured(ShippedConfig.(useApi := true, apiKey := Some("k"), channelId := Some("UCx")))
  {
  }

  /** Whatever else a configuration holds, the API switched off, either
      placeholder or a missing key or channel keep it unconfigured, and an
      unconfigured service fails every fetch the same way, without using the
      network's answer or touching its cache. */
  lemma UnconfiguredNeverRequests(s: Service, now: int, done: int,
                                  r1: Result<Option<seq<SearchItem>>, string>,
                                  r2: Result<Option<seq<SearchItem>>, string>)
    ensures (|| !s.config.useApi
             || s.config.apiKey == Some(KeyPlaceholder) || s.config.channelId == Some(ChannelPlaceholder)
             || !Truthy(s.config.apiKey) || !Truthy(s.config.channelId)) ==> !IsConfigured(s.config)
    ensures !IsConfigured(s.config) ==>
      FetchVideos(s, now, done, r1) == FetchVideos(s, now, done, r2) == (Failure(ApiCache.NotConfigured), s)
  {
  }

  /** `getChannelId(name)`: a name starting with `UC` is already a channel
      ID and is returned without a lookup; otherwise the ID the username
      lookup found (`lookup`, `None` when it found nothing or failed), or
      the name itself. */
  function ChannelId(name: string, lookup: Option<string>): (r: string)
    ensures StartsWith(name, "UC") ==> r == name
    ensures !StartsWith(name, "UC") && lookup.Some? ==> r == lookup.value
    ensures lookup.None? ==> r == name
  {
    if !StartsWith(name, "UC") && lookup.Some? then lookup.value else name
  }

  /** The channel ID does not depend on the lookup for a `UC` name. */
  lemma ChannelIdNeedsNoLookup(name: string, a: Option<string>, b: Option<string>)
    requires StartsWith(name, "UC")
    ensures ChannelId(name, a) == ChannelId(name, b) == name
  {
  }

  /** One search result: `id.videoId` and the `snippet` fields read. */
  datatype SearchItem = SearchItem(
    videoId: Option<string>,
    title: Option<string>,
    description: string,
    publishedAt: string,
    highThumbnail: Option<string>,
    defaultThumbnail: Option<string>)

  /** One search result as a video record. */
  function TransformItem(item: SearchItem): (r: VideoLoader.Video)
    ensures r.id == item.videoId && r.title == item.title
    ensures r.description.Some? && r.date.Some? && r.youtubeUrl.Some?
    ensures |item.description| <= DescriptionLimit ==> r.description.value == item.description
    ensures |item.description| > DescriptionLimit ==>
      && |r.description.value| == DescriptionLimit + 3
      && r.description.value[..DescriptionLimit] == item.description[..DescriptionLimit]
      && EndsWith(r.description.value, "...")
    ensures StartsWith(item.publishedAt, r.date.value)
    ensures forall k :: 0 <= k < |r.date.value| ==> r.date.value[k] != 'T'
    ensures |r.date.value| < |item.publishedAt| ==> item.publishedAt[|r.date.value|] == 'T'
    ensures Truthy(item.highThumbnail) ==> r.thumbnail == item.highThumbnail
    ensures !Truthy(item.highThumbnail) ==> r.thumbnail == item.defaultThumbnail
    ensures item.videoId.Some? ==> r.youtubeUrl.value == VideoLoader.WatchPrefix + item.videoId.value
  {
    VideoLoader.Video(
      item.videoId,
      item.title,
      Some(Truncate(item.description, DescriptionLimit)),
      Some(BeforeFirst(item.publishedAt, 'T')),
      OrElse(item.highThumbnail, item.defaultThumbnail),
      Some(VideoLoader.WatchPrefix + Interpolate(item.videoId)))
  }

  /** The video a fetched record embeds and links to is the one the search
      returned, whenever its ID is clean. */
  lemma TransformedVideoRoundTrip(item: SearchItem)
    requires item.videoId.Some? && VideoLoader.CleanId(item.videoId.value)
    ensures VideoLoader.VideoIdOf(TransformItem(item)) == item.videoId.value
    ensures VideoLoader.WatchLink(TransformItem(item)) == VideoLoader.WatchPrefix + item.videoId.value
    ensures VideoLoader.ExtractVideoId(Some(VideoLoader.EmbedSource(TransformItem(item)))) == item.videoId.value
  {
    VideoLoader.WatchUrlRoundTrip(item.videoId.value);
    VideoLoader.CardLinksAgree(TransformItem(item));
  }

  /** `YouTubeAPIService`: its configuration and its cache. */
  datatype Service = Service(config: Config, cache: ApiCache.Cache<VideoLoader.Video>)

  /** What the search request yields: the response error, a type error for
      a body without `items`, or the transformed list. */
  function RequestVideos(response: Result<Option<seq<SearchItem>>, string>)
    : (r: Result<seq<VideoLoader.Video>, string>)
    ensures response.Failure? ==> r == Failure(response.error)
    ensures response == Success(None) ==> r == Failure("TypeError")
    ensures response.Success? && response.value.Some? ==> r == Success(Map(TransformItem, response.value.value))
  {
    match response
    case Failure(message) => Failure(message)
    case Success(None) => Failure("TypeError")
    case Success(Some(items)) => Success(Map(TransformItem, items))
  }

  /** `fetchVideos()` started at `now`, its request completing at `done`. */
  function FetchVideos(s: Service, now: int, done: int, response: Result<Option<seq<SearchItem>>, string>)
    : (r: (Result<seq<VideoLoader.Video>, ApiCache.FetchError>, Service))
    ensures r.1.config == s.config
    ensures !IsConfigured(s.config) ==> r == (Failure(ApiCache.NotConfigured), s)
    ensures IsConfigured(s.config) && ApiCache.IsValid(s.cache, now, s.config.cacheDuration) ==>
      r == (Success(s.cache.entries.value), s)
    ensures IsConfigured(s.config) && !ApiCache.IsValid(s.cache, now, s.config.cacheDuration) ==>
      match RequestVideos(response)
      case Failure(message) => r == (Failure(ApiCache.RequestFailed(message)), s)
      case Success(videos) => r == (Success(videos), s.(cache := ApiCache.Store(videos, done)))
  {
    var o := ApiCache.Fetch(IsConfigured(s.config), s.cache, now, done, s.config.cacheDuration, RequestVideos(response));
    (o.result, s.(cache := o.cache))
  }

  /** After a successful fetch completing at a non-zero time, the next
      fetch started within the cache duration returns the same videos
      without a request. */
  lemma FetchThenCached(s: Service, now: int, done: int, items: seq<SearchItem>, later: int, laterDone: int,
                        second: Result<Option<seq<SearchItem>>, string>)
    requires done != 0 && done <= later < done + s.config.cacheDuration
    requires IsConfigured(s.config) && !ApiCache.IsValid(s.cache, now, s.config.cacheDuration)
    ensures var first := FetchVideos(s, now, done, Success(Some(items)));
      && first.0 == Success(Map(TransformItem, items))
      && FetchVideos(first.1, later, laterDone, second) == first
  {
  }

  /** Every fetched video whose search result carried a clean ID embeds
      that ID. */
  lemma FetchedVideosEmbedTheirIds(s: Service, now: int, done: int, items: seq<SearchItem>)
    requires IsConfigured(s.config) && !ApiCache.IsValid(s.cache, now, s.config.cacheDuration)
    ensures var r := FetchVideos(s, now, done, Success(Some(items)));
      && r.0.Success?
      && |r.0.value| == |items|
      && forall k :: 0 <= k < |items| && items[k].videoId.Some? && VideoLoader.CleanId(items[k].videoId.value) ==>
           VideoLoader.VideoIdOf(r.0.value[k]) == items[k].videoId.value
  {
    var r := FetchVideos(s, now, done, Success(Some(items)));
    forall k | 0 <= k < |items| && items[k].videoId.Some? && VideoLoader.CleanId(items[k].videoId.value)
      ensures VideoLoader.VideoIdOf(r.0.value[k]) == items[k].videoId.value
    {
      TransformedVideoRoundTrip(items[k]);
    }
  }
}
