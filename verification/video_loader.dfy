/** The video widget: extraction of a YouTube video ID from a URL or a bare
    ID, the choice of ID source and watch link for a video card, and the
    location of the fallback video list. */
module VideoLoader {
  import opened Js

  /** The three URL forms the extraction pattern recognises, in the order of
      its alternatives. */
  const WatchMarker: string := "youtube.com/watch?v="
  const ShortMarker: string := "youtu.be/"
  const EmbedMarker: string := "youtube.com/embed/"

  const WatchPrefix: string := "https://www.youtube.com/watch?v="
  const EmbedPrefix: string := "https://www.youtube.com/embed/"
  const EmbedQuery: string := "?rel=0&modestbranding=1"

  predicate IsMarker(m: string) {
    m == WatchMarker || m == ShortMarker || m == EmbedMarker
  }

  /** A character the capture group `[^&\n?#]` accepts. */
  predicate IdChar(c: char) {
    c != '&' && c != '\n' && c != '?' && c != '#'
  }

  /** Non-empty and made only of characters the capture group accepts. */
  predicate CleanId(id: string) {
    |id| > 0 && forall k :: 0 <= k < |id| ==> IdChar(id[k])
  }

  /** Alternative `m` of the pattern matches at position `p`: the marker
      occurs there and at least one accepted character follows it. */
  predicate AltAt(s: string, p: nat, m: string) {
    p + |m| < |s| && s[p..p + |m|] == m && IdChar(s[p + |m|])
  }

  /** The first pattern matches at position `p`. */
  predicate MatchesAt(s: string, p: nat) {
    AltAt(s, p, WatchMarker) || AltAt(s, p, ShortMarker) || AltAt(s, p, EmbedMarker)
  }

  /** Where the capture group starts for a match at `p`: after the first
      alternative, in pattern order, that matches there. */
  function CaptureStart(s: string, p: nat): (k: nat)
    requires MatchesAt(s, p)
    ensures p < k < |s| && IdChar(s[k])
  {
    if AltAt(s, p, WatchMarker) then p + |WatchMarker|
    else if AltAt(s, p, ShortMarker) then p + |ShortMarker|
    else p + |EmbedMarker|
  }

  /** End of the maximal run of accepted characters starting at `k`: the
      greedy `+` of the capture group. */
  function RunEnd(s: string, k: nat): (j: nat)
    requires k <= |s|
    ensures k <= j <= |s|
    ensures forall t :: k <= t < j ==> IdChar(s[t])
    ensures j == |s| || !IdChar(s[j])
    decreases |s| - k
  {
    if k == |s| || !IdChar(s[k]) then k else RunEnd(s, k + 1)
  }

  /** The leftmost position at or after `from` where the first pattern matches. */
  function FirstMatch(s: string, from: nat): (r: Option<nat>)
    requires from <= |s|
    ensures r.Some? ==> from <= r.value < |s| && MatchesAt(s, r.value)
    ensures r.Some? ==> forall q :: from <= q < r.value ==> !MatchesAt(s, q)
    ensures r.None? ==> forall q :: from <= q < |s| ==> !MatchesAt(s, q)
    decreases |s| - from
  {
    if from == |s| then None
    else if MatchesAt(s, from) then Some(from)
    else FirstMatch(s, from + 1)
  }

  /** The capture group of the first pattern, when it matches anywhere. */
  function PatternCapture(s: string): (r: Option<string>)
    ensures r.Some? ==> CleanId(r.value)
    ensures r.None? <==> forall q :: 0 <= q < |s| ==> !MatchesAt(s, q)
  {
    match FirstMatch(s, 0)
    case None => None
    case Some(p) =>
      var k := CaptureStart(s, p);
      var j := RunEnd(s, k);
      Some(s[k..j])
  }

  /** The character class `[a-zA-Z0-9_-]` of the second pattern. */
  predicate BareIdChar(c: char) {
    ('a' <= c <= 'z') || ('A' <= c <= 'Z') || ('0' <= c <= '9') || c == '_' || c == '-'
  }

  /** The second pattern `^([a-zA-Z0-9_-]{11})$`. */
  predicate IsBareId(s: string) {
    |s| == 11 && forall k :: 0 <= k < |s| ==> BareIdChar(s[k])
  }

  /** `extractVideoId`: empty for a missing or empty argument; the argument
      itself when it mentions neither `http` nor `/`; otherwise the capture
      of the first pattern, or, failing that, the argument (the second
      pattern and the fallback both return it whole). */
  function ExtractVideoId(urlOrId: Option<string>): (r: string)
    ensures !Truthy(urlOrId) ==> r == ""
    ensures Truthy(urlOrId) && !Contains(urlOrId.value, "http") && !Contains(urlOrId.value, "/")
            ==> r == urlOrId.value
    ensures Truthy(urlOrId) && (Contains(urlOrId.value, "http") || Contains(urlOrId.value, "/"))
            ==> match PatternCapture(urlOrId.value)
                case Some(id) => r == id && CleanId(r)
                case None => r == urlOrId.value
  {
    if !Truthy(urlOrId) then ""
    else
      var s := urlOrId.value;
      if !Contains(s, "http") && !Contains(s, "/") then s
      else match PatternCapture(s)
        case Some(id) => id
        case None => if IsBareId(s) then s else s
  }

  /** A string with the accepted characters `id` starts at `k` and ends
      there or at a rejected character: the greedy run is exactly `id`. */
  lemma RunIsId(s: string, k: nat, id: string)
    requires k + |id| <= |s| && s[k..k + |id|] == id
    requires forall t :: 0 <= t < |id| ==> IdChar(id[t])
    requires k + |id| == |s| || !IdChar(s[k + |id|])
    ensures RunEnd(s, k) == k + |id|
  {
    assert forall t :: k <= t < k + |id| ==> s[t] == id[t - k];
  }

  /** Every marker starts with `y`, so no match starts on another letter. */
  lemma NoMatchBefore(s: string, p: nat)
    requires p <= |s|
    requires forall q :: 0 <= q < p ==> s[q] != 'y'
    ensures forall q :: 0 <= q < p ==> !MatchesAt(s, q)
  {
    forall q | 0 <= q < p
      ensures !MatchesAt(s, q)
    {
      assert q + |WatchMarker| <= |s| ==> s[q..q + |WatchMarker|][0] == s[q];
      assert q + |ShortMarker| <= |s| ==> s[q..q + |ShortMarker|][0] == s[q];
      assert q + |EmbedMarker| <= |s| ==> s[q..q + |EmbedMarker|][0] == s[q];
    }
  }

  /** A match at `p` with none before it is the leftmost one. */
  lemma FirstMatchIs(s: string, p: nat)
    requires p < |s| && MatchesAt(s, p)
    requires forall q :: 0 <= q < p ==> !MatchesAt(s, q)
    ensures FirstMatch(s, 0) == Some(p)
  {
  }

  /** The three markers exclude one another at one position, so the
      capture starts right after the marker that occurs there. */
  lemma CaptureAfter(s: string, p: nat, m: string)
    requires IsMarker(m) && AltAt(s, p, m)
    ensures CaptureStart(s, p) == p + |m|
  {
    assert s[p..p + |m|] == m;
    if m == ShortMarker {
      assert s[p + 5] == '.';
      assert !AltAt(s, p, WatchMarker) by {
        if p + |WatchMarker| <= |s| { assert s[p..p + |WatchMarker|][5] == s[p + 5]; }
      }
    } else if m == EmbedMarker {
      assert s[p + 5] == 'b' && s[p + 12] == 'e';
      assert !AltAt(s, p, WatchMarker) by {
        if p + |WatchMarker| <= |s| { assert s[p..p + |WatchMarker|][12] == s[p + 12]; }
      }
      assert !AltAt(s, p, ShortMarker) by {
        if p + |ShortMarker| <= |s| { assert s[p..p + |ShortMarker|][5] == s[p + 5]; }
      }
    }
  }

  /** Where the parts of `prefix + m + id + rest` sit. */
  lemma UrlLayout(prefix: string, m: string, id: string, rest: string)
    requires forall t :: 0 <= t < |prefix| ==> prefix[t] != 'y'
    requires |id| > 0
    ensures var s, p := prefix + m + id + rest, |prefix|;
      && s[p..p + |m|] == m
      && s[p + |m|..p + |m| + |id|] == id
      && s[p + |m|] == id[0]
      && (p + |m| + |id| < |s| ==> s[p + |m| + |id|] == rest[0])
      && (forall q :: 0 <= q < p ==> s[q] != 'y')
  {
    var s, p := prefix + m + id + rest, |prefix|;
    assert forall q :: 0 <= q < p ==> s[q] == prefix[q];
  }

  /** A URL made of a prefix without the letter `y`, one of the three
      markers, a clean ID and a tail that starts with a rejected character
      yields exactly that ID. */
  lemma ExtractAfterMarker(prefix: string, m: string, id: string, rest: string)
    requires IsMarker(m)
    requires forall t :: 0 <= t < |prefix| ==> prefix[t] != 'y'
    requires CleanId(id)
    requires |rest| == 0 || !IdChar(rest[0])
    ensures ExtractVideoId(Some(prefix + m + id + rest)) == id
  {
    var s := prefix + m + id + rest;
    var p := |prefix|;
    var k := p + |m|;
    UrlLayout(prefix, m, id, rest);
    assert AltAt(s, p, m);
    NoMatchBefore(s, p);
    ExtractLeftmost(s, p);
    CaptureAfter(s, p, m);
    RunIsId(s, k, id);
  }

  /** For the leftmost position where a marker is followed by an accepted
      character, the result is the longest run of accepted characters after
      the marker. */
  lemma ExtractLeftmost(s: string, p: nat)
    requires p < |s| && MatchesAt(s, p)
    requires forall q :: 0 <= q < p ==> !MatchesAt(s, q)
    ensures var k := CaptureStart(s, p);
            ExtractVideoId(Some(s)) == s[k..RunEnd(s, k)]
  {
    MatchHasSlash(s, p);
    FirstMatchIs(s, p);
  }

  /** Every marker has a slash, so a string the pattern matches has one. */
  lemma MatchHasSlash(s: string, p: nat)
    requires MatchesAt(s, p)
    ensures Contains(s, "/")
  {
    var m := if AltAt(s, p, WatchMarker) then WatchMarker
             else if AltAt(s, p, ShortMarker) then ShortMarker else EmbedMarker;
    var slash: nat := if m == ShortMarker then 8 else 11;
    assert s[p..p + |m|] == m;
    assert s[p + slash] == m[slash] == '/';
    assert s[p + slash..p + slash + 1] == "/";
    ContainsAt(s, "/", p + slash);
  }

  /** A string without a slash never matches the first pattern. */
  lemma NoSlashNoMatch(s: string)
    requires forall t :: 0 <= t < |s| ==> s[t] != '/'
    ensures PatternCapture(s).None?
  {
    forall q | 0 <= q < |s|
      ensures !MatchesAt(s, q)
    {
      NoMarkerWithoutSlash(s, q, WatchMarker, 11);
      NoMarkerWithoutSlash(s, q, ShortMarker, 8);
      NoMarkerWithoutSlash(s, q, EmbedMarker, 11);
    }
  }

  /** A marker with a slash at offset `i` does not occur in a string
      without one. */
  lemma NoMarkerWithoutSlash(s: string, q: nat, m: string, i: nat)
    requires i < |m| && m[i] == '/'
    requires forall t :: 0 <= t < |s| ==> s[t] != '/'
    ensures !AltAt(s, q, m)
  {
    if q + |m| <= |s| {
      assert s[q..q + |m|][i] == s[q + i];
    }
  }

  /** An 11-character bare ID comes back unchanged, whether or not it
      happens to contain the letters `http`. */
  lemma BareIdUnchanged(s: string)
    requires IsBareId(s)
    ensures ExtractVideoId(Some(s)) == s
  {
    NoSlashNoMatch(s);
  }

  /** The watch URL of a clean ID parses back to that ID. */
  lemma WatchUrlRoundTrip(id: string)
    requires CleanId(id)
    ensures ExtractVideoId(Some(WatchPrefix + id)) == id
  {
    assert WatchPrefix == "https://www." + WatchMarker;
    assert WatchPrefix + id == "https://www." + WatchMarker + id + "";
    ExtractAfterMarker("https://www.", WatchMarker, id, "");
  }

  /** The embed source URL of a clean ID parses back to that ID: the
      query string is cut off at its `?`. */
  lemma EmbedUrlRoundTrip(id: string)
    requires CleanId(id)
    ensures ExtractVideoId(Some(EmbedPrefix + id + EmbedQuery)) == id
  {
    assert EmbedPrefix == "https://www." + EmbedMarker;
    assert EmbedPrefix + id + EmbedQuery == "https://www." + EmbedMarker + id + EmbedQuery;
    ExtractAfterMarker("https://www.", EmbedMarker, id, EmbedQuery);
  }

  /** A short `youtu.be` link of a clean ID parses back to that ID. */
  lemma ShortUrlRoundTrip(id: string)
    requires CleanId(id)
    ensures ExtractVideoId(Some("https://" + ShortMarker + id)) == id
  {
    assert "https://" + ShortMarker + id == "https://" + ShortMarker + id + "";
    ExtractAfterMarker("https://", ShortMarker, id, "");
  }

  /** A video entry as read from the video list or built from the YouTube API. */
  datatype Video = Video(
    id: Option<string>,
    title: Option<string>,
    description: Option<string>,
    date: Option<string>,
    thumbnail: Option<string>,
    youtubeUrl: Option<string>)

  /** The ID a video card embeds: extracted from `youtubeUrl` when that is
      set, from `id` otherwise. */
  function VideoIdOf(v: Video): (r: string)
    ensures Truthy(v.youtubeUrl) ==> r == ExtractVideoId(v.youtubeUrl)
    ensures !Truthy(v.youtubeUrl) ==> r == ExtractVideoId(v.id)
  {
    ExtractVideoId(OrElse(v.youtubeUrl, v.id))
  }

  /** The "Watch on YouTube" link: `youtubeUrl` when set, otherwise the
      watch URL built from the extracted ID. */
  function WatchLink(v: Video): (r: string)
    ensures Truthy(v.youtubeUrl) ==> r == v.youtubeUrl.value
    ensures !Truthy(v.youtubeUrl) ==> r == WatchPrefix + ExtractVideoId(v.id)
  {
    OrDefault(v.youtubeUrl, WatchPrefix + VideoIdOf(v))
  }

  /** The embed frame's source URL. */
  function EmbedSource(v: Video): string {
    EmbedPrefix + VideoIdOf(v) + EmbedQuery
  }

  /** The link and the frame of a card name the same video: whenever the
      embedded ID is clean, extracting from the link or from the frame's
      source gives that ID back. */
  lemma CardLinksAgree(v: Video)
    requires CleanId(VideoIdOf(v))
    ensures ExtractVideoId(Some(WatchLink(v))) == VideoIdOf(v)
    ensures ExtractVideoId(Some(EmbedSource(v))) == VideoIdOf(v)
  {
    EmbedUrlRoundTrip(VideoIdOf(v));
    if !Truthy(v.youtubeUrl) {
      WatchUrlRoundTrip(VideoIdOf(v));
    }
  }
}
