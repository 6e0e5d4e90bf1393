/** `getEmbedUrl` of the post page: rewrites a YouTube link to its embeddable
    form by cutting the video id out of the URL with `includes` and `split`. */
module VideoEmbed {
  import opened Wrappers
  import opened JsStrings

  const EmbedPrefix := "https://www.youtube.com/embed/"

  /** The URL names YouTube by either of its host names. */
  predicate IsYouTube(url: string) {
    Includes(url, "youtube.com") || Includes(url, "youtu.be")
  }

  /** The id expression: with "v=" present, the second piece of
      `split("v=")` cut at the first "&"; otherwise the second piece of
      `split("youtu.be/")`, which is `undefined` when there is none. The
      `split("v=")[1]` element always exists when "v=" is present, so no
      exception can arise here. */
  function VideoId(url: string): Option<string> {
    if Includes(url, "v=") then
      SplitFirstTwo(url, "v=");
      Some(Split(Split(url, "v=")[1], "&")[0])
    else At(Split(url, "youtu.be/"), 1)
  }

  /** The id is the text after the first "v=" up to the next "v=" or the first
      "&" after it; without "v=", the text after the first "youtu.be/" up to any
      later "youtu.be/"; with neither, there is none. */
  lemma VideoIdMeaning(url: string)
    ensures Includes(url, "v=") ==>
      VideoId(url) == Some(Before(Before(After(url, "v="), "v="), "&"))
    ensures !Includes(url, "v=") && Includes(url, "youtu.be/") ==>
      VideoId(url) == Some(Before(After(url, "youtu.be/"), "youtu.be/"))
    ensures !Includes(url, "v=") && !Includes(url, "youtu.be/") ==> VideoId(url).None?
  {
    if Includes(url, "v=") {
      SplitFirstTwo(url, "v=");
      SplitFirst(Split(url, "v=")[1], "&");
    } else if Includes(url, "youtu.be/") {
      SplitFirstTwo(url, "youtu.be/");
    } else {
      SplitAbsent(url, "youtu.be/");
    }
  }

  /** `getEmbedUrl(url)`: `None` for a null or empty URL (`None` in the
      result is the page's `null`), the embed URL for YouTube links, and the
      URL unchanged otherwise. A YouTube URL with neither "v=" nor "youtu.be/"
      gives the embed prefix followed by the text "undefined". */
  function EmbedUrl(url: Option<string>): (r: Option<string>)
    ensures url.None? || url == Some("") ==> r.None?
    ensures url.Some? && url.value != "" && !IsYouTube(url.value) ==> r == url
    ensures url.Some? && IsYouTube(url.value) && Includes(url.value, "v=") ==>
      r == Some(EmbedPrefix + Before(Before(After(url.value, "v="), "v="), "&"))
    ensures url.Some? && IsYouTube(url.value) && !Includes(url.value, "v=") && Includes(url.value, "youtu.be/") ==>
      r == Some(EmbedPrefix + Before(After(url.value, "youtu.be/"), "youtu.be/"))
    ensures url.Some? && IsYouTube(url.value) && !Includes(url.value, "v=") && !Includes(url.value, "youtu.be/") ==>
      r == Some(EmbedPrefix + "undefined")
  {
    match url
    case None => None
    case Some(u) =>
      if u == "" then None
      else if IsYouTube(u) then
        VideoIdMeaning(u);
        Some(EmbedPrefix + TemplateText(VideoId(u)))
      else Some(u)
  }

  /** A short link built from parts without "v=" has no "v=" either. */
  lemma ShortLinkHasNoWatchKey(p: string, id: string)
    requires !Includes(p, "v=") && !Includes(id, "v=")
    ensures !Includes(p + "youtu.be/" + id, "v=")
  {
    var host := "youtu.be/";
    FirstCharAbsent(host, "v=");
    PairAbsentFromJoin(p, host, "v=");
    PairAbsentFromJoin(p + host, id, "v=");
  }

  /** In `p + "youtu.be/" + id`, the short host is found, and the text after
      its first occurrence is `id`. */
  lemma ShortLinkParts(p: string, id: string)
    requires 'y' !in p
    ensures IsYouTube(p + "youtu.be/" + id) && Includes(p + "youtu.be/" + id, "youtu.be/")
    ensures After(p + "youtu.be/" + id, "youtu.be/") == id
  {
    var host := "youtu.be/";
    var u := p + host + id;
    assert u == p + (host + id);
    CharFreePrefix(p, host + id, host);
    FirstSeparator(p, host, id);
    assert u == p + "youtu.be" + ("/" + id);
    OccursAfterPrefix(p, "youtu.be", "/" + id);
    IncludesIffOccurs(u, "youtu.be");
  }

  /** A short link `p + "youtu.be/" + id` embeds exactly `id`, when the
      prefix `p` has no "y" and no "v=", and `id` includes neither "v=" nor
      "youtu.be/". */
  lemma ShortLinkEmbeds(p: string, id: string)
    requires 'y' !in p && !Includes(p, "v=")
    requires !Includes(id, "v=") && !Includes(id, "youtu.be/")
    ensures EmbedUrl(Some(p + "youtu.be/" + id)) == Some(EmbedPrefix + id)
  {
    ShortLinkHasNoWatchKey(p, id);
    ShortLinkParts(p, id);
  }

  /** The id cut from the text after "v=": up to the first "&", when `id`
      has no "&" and does not include "v=". */
  lemma WatchIdCut(id: string, rest: string)
    requires !Includes(id, "v=") && '&' !in id
    ensures Before(Before(id + "&" + rest, "v="), "&") == id
  {
    FirstCharAbsent("&", "v=");
    PairAbsentFromJoin(id, "&", "v=");
    PairFreePrefix(id + "&", rest, "v=");
    var b := Before(id + "&" + rest, "v=");
    BeforeKeepsPrefix(id + "&", rest, "v=");
    var z := b[|id| + 1..];
    assert b == id + "&" + z;
    CharFreePrefix(id, "&" + z, "&");
    assert id + "&" + z == id + ("&" + z);
    FirstSeparator(id, "&", z);
  }

  /** A watch link `p + "v=" + id + "&" + rest` on a YouTube host embeds
      exactly `id`, when neither `p` nor `id` includes "v=" and `id` has no
      "&". */
  lemma WatchLinkEmbeds(p: string, id: string, rest: string)
    requires Includes(p, "youtube.com")
    requires !Includes(p, "v=") && !Includes(id, "v=") && '&' !in id
    ensures EmbedUrl(Some(p + "v=" + id + "&" + rest)) == Some(EmbedPrefix + id)
  {
    var tail := id + "&" + rest;
    var u := p + "v=" + tail;
    assert u == p + "v=" + id + "&" + rest;
    IncludesPrefix(p, "v=" + tail, "youtube.com");
    assert p + ("v=" + tail) == u;
    PairFreePrefix(p, "v=" + tail, "v=");
    FirstSeparator(p, "v=", tail);
    WatchIdCut(id, rest);
  }

  /** A URL of another host passes through unchanged. */
  lemma OtherHostExample(url: string)
    requires url == "https://vimeo.com/123"
    ensures EmbedUrl(Some(url)) == Some(url)
  {
    FirstCharAbsent(url, "youtube.com");
    FirstCharAbsent(url, "youtu.be");
  }
}
