/** Media classification. A capsule's media list holds either legacy bare
    URL strings or `{url, type}` objects; the views decide from them whether
    to render a video, an audio player or an image. */
module Media {
  import opened Wrappers
  import opened Text

  /** One element of a `media` array as received. */
  datatype MediaRef =
    | UrlString(s: string)
    | MediaObject(url: Option<string>, mime: Option<string>)

  /** The three rendering kinds. */
  datatype Kind = Image | Video | Audio

  /** The MIME-prefix rule shared by every view: `video/` gives a video,
      otherwise `audio/` gives an audio player, anything else an image. */
  function KindOfMime(mime: string): (k: Kind)
    ensures k == Video <==> StartsWith(mime, "video/")
    ensures k == Audio <==> StartsWith(mime, "audio/")
    ensures k == Image <==> !StartsWith(mime, "video/") && !StartsWith(mime, "audio/")
  {
    if StartsWith(mime, "video/") then Video
    else if StartsWith(mime, "audio/") then Audio
    else Image
  }

  // ---------------------------------------------------------------------
  // The personal tree view: normalise to `{url, type}` first.

  /** The extension table for legacy strings, tested on the lower-cased URL:
      `.mp4`, `.webm` and `.mp3` are recognised, everything else is taken
      for a JPEG image. */
  function LegacyMime(url: string): (mime: string)
    ensures mime == "video/mp4" <==> EndsWith(ToLower(url), ".mp4")
    ensures mime == "video/webm" <==> EndsWith(ToLower(url), ".webm")
    ensures mime == "audio/mpeg" <==> EndsWith(ToLower(url), ".mp3")
    ensures mime == "image/jpeg" <==>
              !EndsWith(ToLower(url), ".mp4") && !EndsWith(ToLower(url), ".webm") && !EndsWith(ToLower(url), ".mp3")
  {
    var lower := ToLower(url);
    SuffixesExclusive(lower);
    if EndsWith(lower, ".mp4") then "video/mp4"
    else if EndsWith(lower, ".webm") then "video/webm"
    else if EndsWith(lower, ".mp3") then "audio/mpeg"
    else "image/jpeg"
  }

  /** A string ends in at most one of the three recognised extensions,
      since their last characters differ. */
  lemma SuffixesExclusive(l: string)
    ensures EndsWith(l, ".mp4") ==> !EndsWith(l, ".webm") && !EndsWith(l, ".mp3")
    ensures EndsWith(l, ".webm") ==> !EndsWith(l, ".mp3")
  {
    if EndsWith(l, ".mp4") {
      assert l[|l| - 1] == ".mp4"[3];
    }
    if EndsWith(l, ".webm") {
      assert l[|l| - 1] == ".webm"[4];
    }
  }

  /** The derived `{mediaUrl, mediaType}` pair. */
  datatype Normalized = Normalized(url: string, mime: string)

  /** The tree view's normalisation: a string gets its type from the
      extension table; an object with a truthy url keeps its type or defaults
      to `image/jpeg`; an object without a url leaves both empty. */
  function TreeNormalize(m: MediaRef): (n: Normalized)
    ensures m.UrlString? ==> n.url == m.s && n.mime == LegacyMime(m.s)
    ensures m.MediaObject? && Truthy(m.url) ==> n.url == m.url.value && n.mime != ""
    ensures m.MediaObject? && Truthy(m.url) && Truthy(m.mime) ==> n.mime == m.mime.value
    ensures m.MediaObject? && Truthy(m.url) && !Truthy(m.mime) ==> n.mime == "image/jpeg"
    ensures m.MediaObject? && !Truthy(m.url) ==> n == Normalized("", "")
  {
    match m
    case UrlString(s) => Normalized(s, LegacyMime(s))
    case MediaObject(u, t) =>
      if Truthy(u) then Normalized(u.value, OrElse(t, "image/jpeg")) else Normalized("", "")
  }

  /** The kind the tree view renders. */
  function TreeKind(m: MediaRef): Kind {
    KindOfMime(TreeNormalize(m).mime)
  }

  /** Turns a derived pair back into a typed media object. */
  function AsObject(n: Normalized): MediaRef {
    MediaObject(Some(n.url), Some(n.mime))
  }

  /** The legacy table sends exactly `.mp4` and `.webm` to video, `.mp3` to
      audio and everything else to image, whatever the letter case. */
  lemma LegacyStringKinds(s: string)
    ensures TreeKind(UrlString(s)) == Video <==> EndsWith(ToLower(s), ".mp4") || EndsWith(ToLower(s), ".webm")
    ensures TreeKind(UrlString(s)) == Audio <==> EndsWith(ToLower(s), ".mp3")
  {
    TableKinds();
    var l := ToLower(s);
    SuffixesExclusive(l);
    var m := LegacyMime(s);
    assert m == "video/mp4" || m == "video/webm" || m == "audio/mpeg" || m == "image/jpeg";
  }

  /** The kinds of the four types the extension table produces. */
  lemma TableKinds()
    ensures KindOfMime("video/mp4") == Video && KindOfMime("video/webm") == Video
    ensures KindOfMime("audio/mpeg") == Audio && KindOfMime("image/jpeg") == Image
  {
    assert "video/mp4"[..6] == "video/" && "video/webm"[..6] == "video/";
    assert "audio/mpeg"[..6] == "audio/";
    assert "image/jpeg"[..6] != "video/" && "image/jpeg"[..6] != "audio/" by {
      assert "image/jpeg"[0] == 'i';
    }
  }

  /** The extension test ignores letter case. */
  lemma LegacyCaseInsensitive(s: string, t: string)
    requires ToLower(s) == ToLower(t)
    ensures LegacyMime(s) == LegacyMime(t)
    ensures TreeKind(UrlString(s)) == TreeKind(UrlString(t))
  {
  }

  /** Re-classifying the derived `{url, type}` of any item gives the same
      kind: normalisation is idempotent as far as rendering is concerned. */
  lemma TreeKindIdempotent(m: MediaRef)
    ensures TreeKind(AsObject(TreeNormalize(m))) == TreeKind(m)
  {
    var n := TreeNormalize(m);
    if n.url == "" && m.UrlString? {
      assert !EndsWith(ToLower(m.s), ".mp4");
      assert !EndsWith(ToLower(m.s), ".webm");
      assert !EndsWith(ToLower(m.s), ".mp3");
    }
  }

  /** When the derived url is non-empty the pair itself is a fixed point. */
  lemma TreeNormalizeFixedPoint(m: MediaRef)
    requires TreeNormalize(m).url != ""
    ensures TreeNormalize(AsObject(TreeNormalize(m))) == TreeNormalize(m)
  {
  }

  // ---------------------------------------------------------------------
  // The detail views: classify on `mediaItem.type?.startsWith(...)`.

  /** What an element's `src` attribute receives. */
  datatype Source =
    | FromUrl(u: string)    // a URL string (possibly empty)
    | NoUrl                 // `undefined`
    | WholeItem(item: MediaRef)  // `mediaItem.url || mediaItem` falling back to the object

  /** A rendering decision: which element and which source. */
  datatype Rendered = Rendered(kind: Kind, src: Source)

  /** The detail views' rule: a string has no `type`, so it is an image whose
      source is the string itself; an object is classified by its type (a
      missing type is an image); video and audio take `url` as is, an image
      takes a truthy `url` or else the whole item. */
  function DetailRender(m: MediaRef): (r: Rendered)
    ensures m.UrlString? ==> r == Rendered(Image, FromUrl(m.s))
    ensures m.MediaObject? && m.mime.None? ==> r.kind == Image
    ensures m.MediaObject? && m.mime.Some? ==> r.kind == KindOfMime(m.mime.value)
    ensures r.kind == Image && m.MediaObject? ==> r.src == (if Truthy(m.url) then FromUrl(m.url.value) else WholeItem(m))
    ensures r.kind != Image ==> m.MediaObject? && r.src == (if m.url.Some? then FromUrl(m.url.value) else NoUrl)
  {
    match m
    case UrlString(s) => Rendered(Image, FromUrl(s))
    case MediaObject(u, t) =>
      var k := if t.Some? then KindOfMime(t.value) else Image;
      if k == Image then Rendered(Image, if Truthy(u) then FromUrl(u.value) else WholeItem(m))
      else Rendered(k, if u.Some? then FromUrl(u.value) else NoUrl)
  }

  /** For typed objects that carry a url, the detail views and the tree view
      agree on the kind and on the url. */
  lemma DetailAgreesWithTree(m: MediaRef)
    requires m.MediaObject? && Truthy(m.url)
    ensures DetailRender(m).kind == TreeKind(m)
    ensures DetailRender(m).src == FromUrl(TreeNormalize(m).url)
  {
  }

  /** They disagree on legacy strings: the detail views never look at the
      extension, so a legacy `.mp4` or `.webm` URL, in any letter case, is a
      video in the tree and an image in the detail views. */
  lemma LegacyVideoShownAsImageInDetail(s: string)
    requires EndsWith(ToLower(s), ".mp4") || EndsWith(ToLower(s), ".webm")
    ensures TreeKind(UrlString(s)) == Video
    ensures DetailRender(UrlString(s)).kind == Image
  {
    LegacyStringKinds(s);
  }

  /** A string without upper-case letters is its own lower-case form. */
  lemma LowerFixed(s: string)
    requires forall i :: 0 <= i < |s| ==> !('A' <= s[i] <= 'Z')
    ensures ToLower(s) == s
  {
  }

  /** Worked examples of the classification. */
  lemma LegacyVideoExample()
    ensures TreeKind(UrlString("a.mp4")) == Video
  {
    LowerFixed("a.mp4");
    assert EndsWith("a.mp4", ".mp4");
    TableKinds();
  }

  /** A document is rendered as an image. */
  lemma LegacyDocumentExample()
    ensures TreeKind(UrlString("a.pdf")) == Image
  {
    var l := "a.pdf";
    LowerFixed(l);
    assert !EndsWith(l, ".mp4") by { assert l[|l| - 4..][3] != ".mp4"[3]; }
    assert !EndsWith(l, ".webm") by { assert l[|l| - 5..][4] != ".webm"[4]; }
    assert !EndsWith(l, ".mp3") by { assert l[|l| - 4..][3] != ".mp3"[3]; }
    TableKinds();
  }

  lemma TypedExamples()
    ensures TreeKind(MediaObject(Some("a"), Some("audio/mpeg"))) == Audio
    ensures DetailRender(MediaObject(Some("a"), Some("audio/mpeg"))).kind == Audio
    ensures TreeKind(MediaObject(None, Some("video/mp4"))) == Image
  {
    assert StartsWith("audio/mpeg", "audio/");
    assert !StartsWith("audio/mpeg", "video/") by { assert "audio/mpeg"[0] != "video/"[0]; }
    assert !StartsWith("", "video/") && !StartsWith("", "audio/");
  }
}
