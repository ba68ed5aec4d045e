/**
 * Video-id extraction from YouTube links and the URL builders
 * (`getYouTubeId`, `getYouTubeThumbnailUrl`,
 * `getYouTubeThumbnailFallbackUrl`, `getYouTubeWatchUrl`).
 *
 * `new URL(...)` is the partial function `parse`; `None` stands for the
 * exception that the `catch` turns into `null`.
 */
module YouTube {
  import opened Wrappers
  import opened JsText
  import opened WebUrl

  /**
   * The longest prefix of `s` with no character from `stops`: what a regular
   * expression group `([^...]+)` captures at that position.
   */
  function Segment(s: string, stops: set<char>): (seg: string)
    ensures StartsWith(s, seg)
    ensures forall i :: 0 <= i < |seg| ==> seg[i] !in stops
    ensures |seg| < |s| ==> s[|seg|] in stops
  {
    if s == [] || s[0] in stops then [] else [s[0]] + Segment(s[1..], stops)
  }

  /**
   * Group 1 of `pathname.match(/^<prefix>([^<stops>]+)/)`, or `""` when the
   * expression does not match (the group needs at least one character, so
   * it matches exactly when the capture is non-empty).
   */
  function Capture(path: string, prefix: string, stops: set<char>): string
  {
    if StartsWith(path, prefix) then Segment(path[|prefix|..], stops) else ""
  }

  /** A path `prefix + id + rest`, with `rest` starting at a stop character, captures `id`. */
  lemma CaptureOf(prefix: string, id: string, rest: string, stops: set<char>)
    requires forall i :: 0 <= i < |id| ==> id[i] !in stops
    requires rest == [] || rest[0] in stops
    ensures Capture(prefix + id + rest, prefix, stops) == id
  {
    var path := prefix + id + rest;
    assert path[..|prefix|] == prefix;
    assert path[|prefix|..] == id + rest;
    SegmentOf(id, rest, stops);
  }

  lemma {:induction false} SegmentOf(id: string, rest: string, stops: set<char>)
    requires forall i :: 0 <= i < |id| ==> id[i] !in stops
    requires rest == [] || rest[0] in stops
    ensures Segment(id + rest, stops) == id
  {
    if id != [] {
      assert (id + rest)[1..] == id[1..] + rest;
      SegmentOf(id[1..], rest, stops);
    } else {
      assert id + rest == rest;
    }
  }

  /** The stop characters of `[^/?]+` in the current extractor. */
  const SegmentStops: set<char> := {'/', '?'}

  /** `pathname.slice(1)`. */
  function DropFirst(s: string): string
  {
    if s == [] then [] else s[1..]
  }

  /** `.replace(/\/$/, '')`: drops one trailing `/`. */
  function DropTrailingSlash(s: string): (r: string)
    ensures r == s || r + "/" == s
    ensures |s| > 0 && s[|s| - 1] == '/' ==> r + "/" == s
  {
    if |s| > 0 && s[|s| - 1] == '/' then s[..|s| - 1] else s
  }

  /** The playlist test: the path contains `/playlist` or the query has a `list` parameter. */
  predicate IsPlaylist(u: Url)
  {
    Includes(u.pathname, "/playlist") || Has(Query(u), "list")
  }

  /** `getYouTubeId(url)` in its current form: `None` is `null`. */
  function GetYouTubeId(url: Option<string>, parse: string -> Option<Url>): (id: Option<string>)
    ensures id.Some? ==> id.value != ""
    ensures id.Some? ==> url.Some? && parse(url.value).Some? && !IsPlaylist(parse(url.value).value)
    ensures id.Some? ==> StripWww(parse(url.value).value.hostname) in {"youtube.com", "youtu.be"}
  {
    if url.None? || url.value == "" then None
    else
      match parse(url.value)
      case None => None
      case Some(u) =>
        var host := StripWww(u.hostname);
        if IsPlaylist(u) then None
        else if host == "youtu.be" then
          var short := DropTrailingSlash(DropFirst(u.pathname));
          if short == "" then None else Some(short)
        else if host == "youtube.com" then
          var shorts := Capture(u.pathname, "/shorts/", SegmentStops);
          if shorts != "" then Some(shorts)
          else
            var embed := Capture(u.pathname, "/embed/", SegmentStops);
            if embed != "" then Some(embed)
            else
              var v := Get(Query(u), "v");
              if v.Some? && v.value != "" then Some(v.value) else None
        else None
  }

  /** A missing or empty link, or one that does not parse, gives `null`. */
  lemma NoLinkNoId(url: Option<string>, parse: string -> Option<Url>)
    requires url.None? || url.value == "" || parse(url.value).None?
    ensures GetYouTubeId(url, parse).None?
  {
  }

  /** A playlist link gives `null`, whatever its host. */
  lemma PlaylistRejected(s: string, parse: string -> Option<Url>)
    requires parse(s).Some? && IsPlaylist(parse(s).value)
    ensures GetYouTubeId(Some(s), parse).None?
  {
  }

  /** A host other than `youtube.com` or `youtu.be`, after one leading `www.` is dropped, gives `null`. */
  lemma ForeignHostRejected(s: string, parse: string -> Option<Url>)
    requires parse(s).Some? && StripWww(parse(s).value.hostname) !in {"youtube.com", "youtu.be"}
    ensures GetYouTubeId(Some(s), parse).None?
  {
  }

  /**
   * On `youtu.be` the id is the path without its first character and at
   * most one trailing `/`; `null` exactly when nothing else is left.
   */
  lemma ShortLinkId(s: string, parse: string -> Option<Url>)
    requires s != "" && parse(s).Some?
    requires StripWww(parse(s).value.hostname) == "youtu.be" && !IsPlaylist(parse(s).value)
    ensures var path := parse(s).value.pathname;
      var id := GetYouTubeId(Some(s), parse);
      && (id.None? <==> |path| <= 1 || path[1..] == "/")
      && (id.Some? ==> path[1..] == id.value || path[1..] == id.value + "/")
      && (|path| > 1 && path[|path| - 1] != '/' ==> id == Some(path[1..]))
  {
  }

  /** `youtube.com/shorts/<id>` gives `<id>`, whatever the query says. */
  lemma ShortsId(s: string, parse: string -> Option<Url>, id: string, rest: string)
    requires s != "" && parse(s).Some?
    requires StripWww(parse(s).value.hostname) == "youtube.com" && !IsPlaylist(parse(s).value)
    requires id != [] && forall i :: 0 <= i < |id| ==> id[i] !in SegmentStops
    requires rest == [] || rest[0] in SegmentStops
    requires parse(s).value.pathname == "/shorts/" + id + rest
    ensures GetYouTubeId(Some(s), parse) == Some(id)
  {
    CaptureOf("/shorts/", id, rest, SegmentStops);
  }

  /** `youtube.com/embed/<id>` gives `<id>`, whatever the query says. */
  lemma EmbedId(s: string, parse: string -> Option<Url>, id: string, rest: string)
    requires s != "" && parse(s).Some?
    requires StripWww(parse(s).value.hostname) == "youtube.com" && !IsPlaylist(parse(s).value)
    requires id != [] && forall i :: 0 <= i < |id| ==> id[i] !in SegmentStops
    requires rest == [] || rest[0] in SegmentStops
    requires parse(s).value.pathname == "/embed/" + id + rest
    ensures GetYouTubeId(Some(s), parse) == Some(id)
  {
    var path := "/embed/" + id + rest;
    assert path[..8] != "/shorts/" by {
      assert path[1] == 'e';
    }
    CaptureOf("/embed/", id, rest, SegmentStops);
  }

  /** On any other `youtube.com` path, the first non-empty `v` parameter is the id, and without one the result is `null`. */
  lemma WatchParamId(s: string, parse: string -> Option<Url>)
    requires s != "" && parse(s).Some?
    requires StripWww(parse(s).value.hostname) == "youtube.com" && !IsPlaylist(parse(s).value)
    requires Capture(parse(s).value.pathname, "/shorts/", SegmentStops) == ""
    requires Capture(parse(s).value.pathname, "/embed/", SegmentStops) == ""
    ensures var v := Get(Query(parse(s).value), "v");
      GetYouTubeId(Some(s), parse) == if v.Some? && v.value != "" then v else None
  {
  }

  const ThumbnailPrefix := "https://i.ytimg.com/vi/"
  const WatchPrefix := "https://www.youtube.com/watch?v="

  /** `getYouTubeThumbnailUrl(id)`: the id sits between a fixed prefix and `/maxresdefault.jpg`. */
  function ThumbnailUrl(id: string): (u: string)
    ensures StartsWith(u, ThumbnailPrefix) && |u| == |ThumbnailPrefix| + |id| + 18
    ensures u[|ThumbnailPrefix|..|ThumbnailPrefix| + |id|] == id
    ensures u[|ThumbnailPrefix| + |id|..] == "/maxresdefault.jpg"
  {
    ThumbnailPrefix + id + "/maxresdefault.jpg"
  }

  /** `getYouTubeThumbnailFallbackUrl(id)`: the id sits between a fixed prefix and `/hqdefault.jpg`. */
  function ThumbnailFallbackUrl(id: string): (u: string)
    ensures StartsWith(u, ThumbnailPrefix) && |u| == |ThumbnailPrefix| + |id| + 14
    ensures u[|ThumbnailPrefix|..|ThumbnailPrefix| + |id|] == id
    ensures u[|ThumbnailPrefix| + |id|..] == "/hqdefault.jpg"
  {
    ThumbnailPrefix + id + "/hqdefault.jpg"
  }

  /** `getYouTubeWatchUrl(id)`: the id follows a fixed prefix. */
  function WatchUrl(id: string): (u: string)
    ensures StartsWith(u, WatchPrefix) && u[|WatchPrefix|..] == id
  {
    WatchPrefix + id
  }

  /** Different ids give different thumbnail, fallback and watch URLs. */
  lemma BuildersInjective(a: string, b: string)
    requires a != b
    ensures ThumbnailUrl(a) != ThumbnailUrl(b)
    ensures ThumbnailFallbackUrl(a) != ThumbnailFallbackUrl(b)
    ensures WatchUrl(a) != WatchUrl(b)
  {
    if |a| == |b| {
      assert ThumbnailUrl(a)[23..23 + |a|] == a;
      assert ThumbnailFallbackUrl(a)[23..23 + |a|] == a;
    }
    assert WatchUrl(a)[32..] == a;
  }

  /** The watch links' host, without its `www.`, is `youtube.com`. */
  lemma WwwYouTube()
    ensures StripWww("www.youtube.com") == "youtube.com"
  {
    var host := "www.youtube.com";
    assert host[..4] == "www.";
    assert host[4..] == "youtube.com";
  }

  /**
   * The URL parser's reading of a watch link: host `www.youtube.com`, path
   * `/watch` and query `v=<id>`.
   */
  predicate ParsesWatchUrl(parse: string -> Option<Url>, id: string)
  {
    parse(WatchUrl(id)) == Some(Url("www.youtube.com", "/watch", "v=" + id))
  }

  /** The id of a watch link built from an id over `[A-Za-z0-9_-]` is that id. */
  lemma WatchUrlRoundTrip(id: string, parse: string -> Option<Url>)
    requires IsVideoId(id) && ParsesWatchUrl(parse, id)
    ensures GetYouTubeId(Some(WatchUrl(id)), parse) == Some(id)
  {
    var u := Url("www.youtube.com", "/watch", "v=" + id);
    QueryOfVideoId(id);
    assert Query(u) == [("v", id)];
    assert !IsPlaylist(u) by {
      assert !Includes("/watch", "/playlist");
      assert !Has(Query(u), "list");
    }
    WwwYouTube();
    assert Capture("/watch", "/shorts/", SegmentStops) == "";
    assert Capture("/watch", "/embed/", SegmentStops) == "";
    WatchParamId(WatchUrl(id), parse);
  }
}
