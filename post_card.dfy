/**
 * The blog post card: its own, older copy of the YouTube id extractor and
 * the values `PostCard` derives from a post (cover or thumbnail image, link,
 * date label and the tags it shows).
 */
module PostCard {
  import opened Wrappers
  import opened JsText
  import opened WebUrl
  import opened YouTube

  /** The stop character of `[^/]+` in this copy of the extractor. */
  const CardSegmentStops: set<char> := {'/'}

  /**
   * The card's `getYouTubeId`: no playlist test, and on `youtu.be` the path
   * minus its first character, kept verbatim (possibly empty).
   */
  function CardYouTubeId(url: Option<string>, parse: string -> Option<Url>): (id: Option<string>)
    ensures id.Some? ==> url.Some? && parse(url.value).Some?
    ensures id.Some? && id.value == "" ==> StripWww(parse(url.value).value.hostname) == "youtu.be"
  {
    if url.None? || url.value == "" then None
    else
      match parse(url.value)
      case None => None
      case Some(u) =>
        var host := StripWww(u.hostname);
        if host == "youtu.be" then Some(DropFirst(u.pathname))
        else if host == "youtube.com" then
          var shorts := Capture(u.pathname, "/shorts/", CardSegmentStops);
          if shorts != "" then Some(shorts)
          else
            var embed := Capture(u.pathname, "/embed/", CardSegmentStops);
            if embed != "" then Some(embed)
            else
              var v := Get(Query(u), "v");
              if v.Some? && v.value != "" then Some(v.value) else None
        else None
  }

  /** A missing or empty link, one that does not parse, or one on another host gives `null`. */
  lemma CardNoId(url: Option<string>, parse: string -> Option<Url>)
    requires || url.None? || url.value == "" || parse(url.value).None?
             || StripWww(parse(url.value).value.hostname) !in {"youtube.com", "youtu.be"}
    ensures CardYouTubeId(url, parse).None?
  {
  }

  /** On `youtu.be` the card keeps a trailing `/` and can yield the empty id. */
  lemma CardShortLinkVerbatim(s: string, parse: string -> Option<Url>)
    requires s != "" && parse(s).Some? && StripWww(parse(s).value.hostname) == "youtu.be"
    ensures var path := parse(s).value.pathname;
      CardYouTubeId(Some(s), parse) == Some(if path == [] then [] else path[1..])
    ensures parse(s).value.pathname == "/" ==> CardYouTubeId(Some(s), parse) == Some("")
  {
  }

  /** The query `v=<x>&list=<y>` reads as the two pairs, in order. */
  lemma WatchListQuery(x: string, y: string)
    requires IsVideoId(x) && IsVideoId(y)
    ensures ParseQuery("v=" + x + "&list=" + y) == [("v", x), ("list", y)]
  {
    WatchListSplit(x, y);
    IdHasNoDelimiters(x);
    assert '&' !in "v=" + x;
    ParseQueryAmp("v=" + x, "list=" + y);
    QueryOfVideoId(x);
    ListQuery(y);
  }

  lemma WatchListSplit(x: string, y: string)
    ensures "v=" + x + "&list=" + y == ("v=" + x) + "&" + ("list=" + y)
  {
    var first := "v=" + x;
    var q := "v=" + x + "&list=" + y;
    var split := first + "&" + ("list=" + y);
    assert |q| == |split|;
    forall i | 0 <= i < |q| ensures q[i] == split[i] {
      if i >= |first| + 1 {
        assert q[i] == ("&list=" + y)[i - |first|];
      }
    }
  }

  /** A query `list=<id>` reads back as the single pair `("list", id)`. */
  lemma ListQuery(y: string)
    requires IsVideoId(y)
    ensures ParseQuery("list=" + y) == [("list", y)]
  {
    IdHasNoDelimiters("list");
    QueryOfPair("list", y);
    assert "list" + "=" == "list=";
  }

  /** A watch link with a `list` parameter: the card reads its `v`, the current extractor gives `null`. */
  lemma CardIgnoresPlaylist(s: string, parse: string -> Option<Url>, x: string, y: string)
    requires s != "" && IsVideoId(x) && IsVideoId(y)
    requires parse(s) == Some(Url("www.youtube.com", "/watch", "v=" + x + "&list=" + y))
    ensures CardYouTubeId(Some(s), parse) == Some(x)
    ensures GetYouTubeId(Some(s), parse) == None
  {
    var u := parse(s).value;
    WatchListQuery(x, y);
    assert Query(u)[1].0 == "list";
    PlaylistRejected(s, parse);
    WwwYouTube();
    assert Capture("/watch", "/shorts/", CardSegmentStops) == "";
    assert Capture("/watch", "/embed/", CardSegmentStops) == "";
    CardWatchId(s, parse);
  }

  /**
   * On `youtube.com` with neither a shorts nor an embed capture the card
   * takes the first `v` parameter when it is non-empty, playlist or not.
   */
  lemma CardWatchId(s: string, parse: string -> Option<Url>)
    requires s != "" && parse(s).Some? && StripWww(parse(s).value.hostname) == "youtube.com"
    requires Capture(parse(s).value.pathname, "/shorts/", CardSegmentStops) == ""
    requires Capture(parse(s).value.pathname, "/embed/", CardSegmentStops) == ""
    ensures var v := Get(Query(parse(s).value), "v");
      CardYouTubeId(Some(s), parse) == if v.Some? && v.value != "" then v else None
  {
  }


  lemma FirstIndexAt(s: string, c: char, k: nat)
    requires k < |s| && s[k] == c && c !in s[..k]
    ensures c in s && FirstIndex(s, c) == k
  {
    var j := FirstIndex(s, c);
    assert s[..j + 1][j] == c;
  }

  /**
   * For a link that is not a playlist and whose path has no `?`: on
   * `youtube.com` the card and the current extractor agree, `null` included;
   * on `youtu.be` the card's id is the current one or has the trailing `/`
   * the current one drops, and where the current one gives `null` the card
   * gives `""` or `"/"`; on any other host both give `null`.
   */
  lemma CardAgreesWithCurrent(s: string, parse: string -> Option<Url>)
    requires s != "" && parse(s).Some? && !IsPlaylist(parse(s).value)
    requires '?' !in parse(s).value.pathname
    ensures var host := StripWww(parse(s).value.hostname);
      var current := GetYouTubeId(Some(s), parse);
      var card := CardYouTubeId(Some(s), parse);
      && (host == "youtube.com" ==> card == current)
      && (host == "youtu.be" && current.Some? ==> card == current || card == Some(current.value + "/"))
      && (host == "youtu.be" && current.None? ==> card == Some("") || card == Some("/"))
      && (host !in {"youtube.com", "youtu.be"} ==> card.None? && current.None?)
  {
    var u := parse(s).value;
    if StripWww(u.hostname) == "youtube.com" {
      SameCapture(u.pathname, "/shorts/");
      SameCapture(u.pathname, "/embed/");
    }
  }

  /** A `/shorts/<id>` link gives the card that id, `list` parameter or not. */
  lemma CardShortsId(s: string, parse: string -> Option<Url>)
    requires s != "" && parse(s).Some? && StripWww(parse(s).value.hostname) == "youtube.com"
    requires '?' !in parse(s).value.pathname
    requires Capture(parse(s).value.pathname, "/shorts/", SegmentStops) != ""
    ensures CardYouTubeId(Some(s), parse) == Some(Capture(parse(s).value.pathname, "/shorts/", SegmentStops))
  {
    SameCapture(parse(s).value.pathname, "/shorts/");
  }

  /** A `/embed/<id>` link that is not a shorts link gives the card that id, `list` parameter or not. */
  lemma CardEmbedId(s: string, parse: string -> Option<Url>)
    requires s != "" && parse(s).Some? && StripWww(parse(s).value.hostname) == "youtube.com"
    requires '?' !in parse(s).value.pathname
    requires Capture(parse(s).value.pathname, "/shorts/", SegmentStops) == ""
    requires Capture(parse(s).value.pathname, "/embed/", SegmentStops) != ""
    ensures CardYouTubeId(Some(s), parse) == Some(Capture(parse(s).value.pathname, "/embed/", SegmentStops))
  {
    SameCapture(parse(s).value.pathname, "/shorts/");
    SameCapture(parse(s).value.pathname, "/embed/");
  }

  /** With no `?` in the path, `[^/?]+` and `[^/]+` capture the same text. */
  lemma SameCapture(path: string, prefix: string)
    requires '?' !in path
    ensures Capture(path, prefix, SegmentStops) == Capture(path, prefix, CardSegmentStops)
  {
    if StartsWith(path, prefix) {
      SameSegment(path[|prefix|..]);
    }
  }

  lemma {:induction false} SameSegment(s: string)
    requires '?' !in s
    ensures Segment(s, SegmentStops) == Segment(s, CardSegmentStops)
  {
    if s != [] {
      assert '?' !in s[1..];
      SameSegment(s[1..]);
    }
  }

  datatype Post = Post(
    coverImageUrl: Option<string>,
    youtubeUrl: Option<string>,
    slug: string,
    publishedAt: Option<string>,
    tags: Option<seq<string>>)

  datatype CardView = CardView(
    image: Option<string>,
    href: string,
    dateLabel: string,
    shownTags: seq<string>)

  /** The thumbnail for an id, only when the id is non-empty. */
  function CardThumbnail(id: Option<string>): (thumb: Option<string>)
    ensures thumb.Some? <==> id.Some? && id.value != ""
    ensures thumb.Some? ==> thumb.value == ThumbnailUrl(id.value)
  {
    if id.Some? && id.value != "" then Some(ThumbnailUrl(id.value)) else None
  }

  /** `imageUrl || youtubeThumbnailUrl`: a non-empty cover image wins. */
  function CardImage(cover: Option<string>, thumb: Option<string>): (image: Option<string>)
    ensures cover.Some? && cover.value != "" ==> image == cover
    ensures !(cover.Some? && cover.value != "") ==> image == thumb
  {
    if cover.Some? && cover.value != "" then cover else thumb
  }

  /** `tags?.length ? tags.slice(0, 4) : null`: at most the first four tags, in order. */
  function ShownTags(tags: Option<seq<string>>): (shown: seq<string>)
    ensures tags.None? ==> shown == []
    ensures tags.Some? ==> |shown| == (if |tags.value| < 4 then |tags.value| else 4)
    ensures tags.Some? ==> shown == tags.value[..|shown|]
  {
    match tags
    case None => []
    case Some(ts) => if |ts| <= 4 then ts else ts[..4]
  }

  /**
   * What `PostCard` shows for a post. `format` stands for the en-US date
   * formatter applied to `new Date(publishedAt)`.
   */
  function Card(post: Post, parse: string -> Option<Url>, format: string -> string): (view: CardView)
    ensures StartsWith(view.href, "/blog/") && view.href[6..] == post.slug
    ensures view.image.Some? <==>
      (post.coverImageUrl.Some? && post.coverImageUrl.value != "") || CardThumbnail(CardYouTubeId(post.youtubeUrl, parse)).Some?
    ensures (post.publishedAt.None? || post.publishedAt.value == "") ==> view.dateLabel == "Draft"
  {
    var thumb := CardThumbnail(CardYouTubeId(post.youtubeUrl, parse));
    CardView(
      CardImage(post.coverImageUrl, thumb),
      "/blog/" + post.slug,
      if post.publishedAt.Some? && post.publishedAt.value != "" then format(post.publishedAt.value) else "Draft",
      ShownTags(post.tags))
  }
}
