/**
 * Parsing WatchAnimeWorld episode identifiers (`parseEpisodeUrl`): either a
 * bare slug such as `naruto-shippuden-1x1`, or an `http...` URL whose path ends
 * in `/episode/<slug>/`. A slug of shape `<anime>-<season>x<episode>` is split
 * into its parts; anything else is rejected whole, never half-parsed.
 *
 * The WHATWG URL parser behind `new URL(...)` is not modelled: the caller
 * supplies it as `pathnameOf`, with `None` for an input it throws on.
 */
module EpisodeUrl {
  import opened JsText

  /** The canonical URL of a bare slug is this prefix, the slug and a `/`. */
  const EpisodeBase := "https://watchanimeworld.in/episode/"

  const EpisodeMarker := "/episode/"

  datatype ParsedEpisodeUrl = ParsedEpisodeUrl(
    slug: string,
    animeSlug: string,
    season: int,
    episode: int,
    fullUrl: string)

  /** The three capture groups of the slug pattern. */
  datatype SlugMatch = SlugMatch(animeSlug: string, seasonDigits: string, episodeDigits: string)

  /**
   * `slug` matches `^(.+?)-(\d+)x(\d+)$` with groups `anime`, `s`, `e`: the
   * anime part is non-empty and free of line terminators (the pattern's `.`),
   * season and episode are runs of ASCII digits.
   */
  predicate SlugShape(slug: string, anime: string, s: string, e: string) {
    slug == anime + "-" + s + "x" + e && |anime| > 0 && MatchesDots(anime) && IsDigits(s) && IsDigits(e)
  }

  /**
   * `path` matches `\/episode\/([^\/]+)\/?$` (unanchored on the left) with
   * `seg` as its group: whatever comes first, then `/episode/`, one non-empty
   * segment without `/`, and at most one trailing `/`.
   */
  predicate PathShape(path: string, prefix: string, seg: string, tail: string) {
    path == prefix + EpisodeMarker + seg + tail && |seg| > 0 && '/' !in seg && (tail == "" || tail == "/")
  }

  function LastIndexOf(s: string, c: char): (r: Option<nat>)
    ensures r.Some? ==> r.value < |s| && s[r.value] == c && forall j :: r.value < j < |s| ==> s[j] != c
    ensures r.None? ==> c !in s
  {
    if s == [] then None
    else if s[|s| - 1] == c then Some(|s| - 1)
    else
      var r := LastIndexOf(s[..|s| - 1], c);
      assert r.None? ==> s == s[..|s| - 1] + [s[|s| - 1]];
      r
  }

  function IndexOf(s: string, c: char): (r: Option<nat>)
    ensures r.Some? ==> r.value < |s| && s[r.value] == c && forall j :: 0 <= j < r.value ==> s[j] != c
    ensures r.None? ==> c !in s
  {
    if s == [] then None
    else if s[0] == c then Some(0)
    else
      match IndexOf(s[1..], c)
      case None => assert s == [s[0]] + s[1..]; None
      case Some(k) => Some(k + 1)
  }

  lemma LastIndexOfAt(s: string, c: char, k: nat)
    requires k < |s| && s[k] == c && forall j :: k < j < |s| ==> s[j] != c
    ensures LastIndexOf(s, c) == Some(k)
  {
  }

  lemma IndexOfAt(s: string, c: char, k: nat)
    requires k < |s| && s[k] == c && forall j :: 0 <= j < k ==> s[j] != c
    ensures IndexOf(s, c) == Some(k)
  {
  }

  lemma DigitsAreNotSeparators(s: string)
    requires IsDigits(s)
    ensures '-' !in s && 'x' !in s && '/' !in s
  {
    forall j | 0 <= j < |s| ensures s[j] != '-' && s[j] != 'x' && s[j] != '/' {
      assert IsDigit(s[j]);
    }
  }

  function EndsWith(s: string, suffix: string): bool {
    |suffix| <= |s| && s[|s| - |suffix|..] == suffix
  }

  /**
   * The slug pattern. The season/episode part contains no `-`, so the lazy
   * anime group ends at the last `-`; it contains exactly one `x`.
   */
  function MatchSlug(slug: string): (r: Option<SlugMatch>)
    ensures r.Some? ==> SlugShape(slug, r.value.animeSlug, r.value.seasonDigits, r.value.episodeDigits)
  {
    match LastIndexOf(slug, '-')
    case None => None
    case Some(dash) =>
      var anime := slug[..dash];
      var rest := slug[dash + 1..];
      match IndexOf(rest, 'x')
      case None => None
      case Some(x) =>
        var s := rest[..x];
        var e := rest[x + 1..];
        if |anime| > 0 && MatchesDots(anime) && IsDigits(s) && IsDigits(e) then
          Reassemble(slug, dash);
          Reassemble(rest, x);
          Some(SlugMatch(anime, s, e))
        else None
  }

  /** Cutting `s` at `k` and dropping `s[k]` leaves the two sides. */
  lemma Reassemble<T>(s: seq<T>, k: nat)
    requires k < |s|
    ensures s == s[..k] + [s[k]] + s[k + 1..]
  {
  }

  /** Every slug of the pattern's shape matches, with exactly those groups. */
  lemma MatchSlugComplete(slug: string, anime: string, s: string, e: string)
    requires SlugShape(slug, anime, s, e)
    ensures MatchSlug(slug) == Some(SlugMatch(anime, s, e))
  {
    var rest := s + ['x'] + e;
    Pieces(anime, '-', rest);
    Pieces(s, 'x', e);
    Associative(anime + "-", s, "x");
    Associative(anime + "-", s + "x", e);
    assert slug == anime + ['-'] + rest;
    DigitsAreNotSeparators(s);
    DigitsAreNotSeparators(e);
    assert '-' !in rest;
    LastDashBeforeDigits(slug, anime, rest);
    IndexOfAt(rest, 'x', |s|);
  }

  /** The parts of `a + [m] + b`, by position. */
  lemma Pieces<T>(a: seq<T>, m: T, b: seq<T>)
    ensures (a + [m] + b)[..|a|] == a && (a + [m] + b)[|a|] == m && (a + [m] + b)[|a| + 1..] == b
    ensures forall j :: 0 <= j < |a| ==> (a + [m] + b)[j] == a[j]
    ensures forall j :: |a| < j < |a| + 1 + |b| ==> (a + [m] + b)[j] == b[j - |a| - 1]
  {
  }

  lemma LastDashBeforeDigits(slug: string, anime: string, rest: string)
    requires slug == anime + ['-'] + rest && '-' !in rest
    ensures LastIndexOf(slug, '-') == Some(|anime|)
  {
    Pieces(anime, '-', rest);
    LastIndexOfAt(slug, '-', |anime|);
  }

  /** The path pattern. */
  function MatchEpisodePath(path: string): (r: Option<string>)
    ensures r.Some? ==> exists prefix, tail :: PathShape(path, prefix, r.value, tail)
  {
    var body := if |path| > 0 && path[|path| - 1] == '/' then path[..|path| - 1] else path;
    match LastIndexOf(body, '/')
    case None => None
    case Some(k) =>
      var seg := body[k + 1..];
      if |seg| > 0 && EndsWith(body[..k + 1], EpisodeMarker) then
        var tail := if |path| > 0 && path[|path| - 1] == '/' then "/" else "";
        var prefix := body[..k + 1 - |EpisodeMarker|];
        assert body == prefix + EpisodeMarker + seg by {
          assert body[..k + 1] == prefix + EpisodeMarker;
        }
        assert path == body + tail;
        assert '/' !in seg by {
          forall j | 0 <= j < |seg| ensures seg[j] != '/' {
            assert seg[j] == body[k + 1 + j];
          }
        }
        assert PathShape(path, prefix, seg, tail);
        Some(seg)
      else None
  }

  /** Every path of the pattern's shape matches, with that segment. */
  lemma MatchEpisodePathComplete(path: string, prefix: string, seg: string, tail: string)
    requires PathShape(path, prefix, seg, tail)
    ensures MatchEpisodePath(path) == Some(seg)
  {
    var body := prefix + EpisodeMarker + seg;
    assert path == body + tail;
    if tail == "/" {
      assert path[|path| - 1] == '/';
      assert path[..|path| - 1] == body;
    } else {
      assert path == body;
      assert path[|path| - 1] == seg[|seg| - 1];
    }
    var k := |prefix| + |EpisodeMarker| - 1;
    assert body[k] == '/';
    forall j | k < j < |body| ensures body[j] != '/' {
      assert body[j] == seg[j - k - 1];
    }
    assert LastIndexOf(body, '/') == Some(k);
    assert body[k + 1..] == seg;
    assert body[..k + 1] == prefix + EpisodeMarker;
  }

  /**
   * Builds the record from a slug once the URL branch has settled the slug
   * and its full URL; the `isNaN` guard rejects nothing a match lets through.
   */
  function FromSlug(slug: string, fullUrl: string): Option<ParsedEpisodeUrl> {
    match MatchSlug(slug)
    case None => None
    case Some(m) =>
      var season := ParseInt10(m.seasonDigits);
      var episode := ParseInt10(m.episodeDigits);
      if season.None? || episode.None? then None
      else Some(ParsedEpisodeUrl(slug, m.animeSlug, season.value, episode.value, fullUrl))
  }

  /** The `isNaN` rejection is unreachable after a successful match. */
  lemma NaNGuardUnreachable(slug: string, fullUrl: string)
    requires MatchSlug(slug).Some?
    ensures FromSlug(slug, fullUrl).Some?
    ensures FromSlug(slug, fullUrl).value.season == DecimalValue(MatchSlug(slug).value.seasonDigits)
    ensures FromSlug(slug, fullUrl).value.episode == DecimalValue(MatchSlug(slug).value.episodeDigits)
  {
    var m := MatchSlug(slug).value;
    ParseInt10OfDigits(m.seasonDigits);
    ParseInt10OfDigits(m.episodeDigits);
  }

  /**
   * Building the record succeeds exactly when the slug matches the pattern,
   * and then keeps the slug and full URL it was given with the match's groups.
   */
  lemma FromSlugIffMatch(slug: string, fullUrl: string)
    ensures FromSlug(slug, fullUrl).Some? <==> MatchSlug(slug).Some?
    ensures MatchSlug(slug).Some? ==>
              var m := MatchSlug(slug).value;
              FromSlug(slug, fullUrl).value
                == ParsedEpisodeUrl(slug, m.animeSlug, DecimalValue(m.seasonDigits), DecimalValue(m.episodeDigits), fullUrl)
  {
    if MatchSlug(slug).Some? {
      NaNGuardUnreachable(slug, fullUrl);
    }
  }

  /**
   * `parseEpisodeUrl`. A success is always a slug of the pattern's shape with
   * its decimal season and episode; a bare slug is kept as given and gets the
   * canonical URL; a URL is kept verbatim as `fullUrl`, its slug being the
   * path's episode segment.
   */
  function ParseEpisodeUrl(urlOrSlug: string, pathnameOf: string -> Option<string>): (r: Option<ParsedEpisodeUrl>)
    ensures r.Some? ==> exists s, e :: SlugShape(r.value.slug, r.value.animeSlug, s, e)
                                      && r.value.season == DecimalValue(s) && r.value.episode == DecimalValue(e)
    ensures r.Some? ==> r.value.season >= 0 && r.value.episode >= 0
    ensures !StartsWith(urlOrSlug, "http") && r.Some? ==>
              r.value.slug == urlOrSlug && r.value.fullUrl == EpisodeBase + urlOrSlug + "/"
    ensures StartsWith(urlOrSlug, "http") && r.Some? ==>
              r.value.fullUrl == urlOrSlug && pathnameOf(urlOrSlug).Some?
              && MatchEpisodePath(pathnameOf(urlOrSlug).value) == Some(r.value.slug)
    ensures StartsWith(urlOrSlug, "http") && pathnameOf(urlOrSlug).None? ==> r.None?
  {
    var r :=
      if StartsWith(urlOrSlug, "http") then
        match pathnameOf(urlOrSlug)
        case None => None
        case Some(pathname) =>
          match MatchEpisodePath(pathname)
          case None => None
          case Some(slug) => FromSlug(slug, urlOrSlug)
      else FromSlug(urlOrSlug, EpisodeBase + urlOrSlug + "/");
    if r.Some? then
      var m := MatchSlug(r.value.slug).value;
      NaNGuardUnreachable(r.value.slug, r.value.fullUrl);
      assert SlugShape(r.value.slug, r.value.animeSlug, m.seasonDigits, m.episodeDigits);
      r
    else r
  }

  /** A bare slug of the pattern's shape is accepted with exactly its parts. */
  lemma BareSlugAccepted(slug: string, anime: string, s: string, e: string, pathnameOf: string -> Option<string>)
    requires !StartsWith(slug, "http")
    requires SlugShape(slug, anime, s, e)
    ensures ParseEpisodeUrl(slug, pathnameOf)
            == Some(ParsedEpisodeUrl(slug, anime, DecimalValue(s), DecimalValue(e), EpisodeBase + slug + "/"))
  {
    MatchSlugComplete(slug, anime, s, e);
    NaNGuardUnreachable(slug, EpisodeBase + slug + "/");
  }

  /** A bare slug not of the pattern's shape is rejected. */
  lemma BareSlugRejected(slug: string, pathnameOf: string -> Option<string>)
    requires !StartsWith(slug, "http")
    requires forall a, s, e :: !SlugShape(slug, a, s, e)
    ensures ParseEpisodeUrl(slug, pathnameOf) == None
  {
  }

  /**
   * A URL whose path ends in `/episode/<slug>` or `/episode/<slug>/`, with a
   * slug of the pattern's shape, is accepted and keeps the URL verbatim.
   */
  lemma UrlAccepted(url: string, pathnameOf: string -> Option<string>,
                    prefix: string, slug: string, tail: string, anime: string, s: string, e: string)
    requires StartsWith(url, "http")
    requires pathnameOf(url).Some? && PathShape(pathnameOf(url).value, prefix, slug, tail)
    requires SlugShape(slug, anime, s, e)
    ensures ParseEpisodeUrl(url, pathnameOf)
            == Some(ParsedEpisodeUrl(slug, anime, DecimalValue(s), DecimalValue(e), url))
  {
    MatchEpisodePathComplete(pathnameOf(url).value, prefix, slug, tail);
    MatchSlugComplete(slug, anime, s, e);
    NaNGuardUnreachable(slug, url);
  }

  /** A URL whose path has no final `/episode/<segment>` is rejected. */
  lemma UrlWithoutEpisodePathRejected(url: string, pathnameOf: string -> Option<string>)
    requires StartsWith(url, "http")
    requires pathnameOf(url).Some?
    requires forall prefix, seg, tail :: !PathShape(pathnameOf(url).value, prefix, seg, tail)
    ensures ParseEpisodeUrl(url, pathnameOf) == None
  {
    var r := MatchEpisodePath(pathnameOf(url).value);
    assert r.None?;
  }

  /** The slug the site uses for an episode. */
  function EpisodeSlug(anime: string, season: nat, episode: nat): string {
    anime + "-" + NatToDecimal(season) + "x" + NatToDecimal(episode)
  }

  /** Parsing a slug built from its parts gives the parts back. */
  lemma SlugRoundTrip(anime: string, season: nat, episode: nat, pathnameOf: string -> Option<string>)
    requires |anime| > 0 && MatchesDots(anime)
    requires !StartsWith(EpisodeSlug(anime, season, episode), "http")
    ensures var slug := EpisodeSlug(anime, season, episode);
            ParseEpisodeUrl(slug, pathnameOf)
            == Some(ParsedEpisodeUrl(slug, anime, season, episode, EpisodeBase + slug + "/"))
  {
    var slug := EpisodeSlug(anime, season, episode);
    BareSlugAccepted(slug, anime, NatToDecimal(season), NatToDecimal(episode), pathnameOf);
  }

  /**
   * The canonical URL of a parsed bare slug parses back to the same record,
   * given a URL parser that reads its path as `/episode/<slug>/`.
   */
  lemma CanonicalUrlReparses(slug: string, pathnameOf: string -> Option<string>)
    requires !StartsWith(slug, "http") && '/' !in slug
    requires ParseEpisodeUrl(slug, pathnameOf).Some?
    requires pathnameOf(EpisodeBase + slug + "/") == Some(EpisodeMarker + slug + "/")
    ensures ParseEpisodeUrl(EpisodeBase + slug + "/", pathnameOf) == ParseEpisodeUrl(slug, pathnameOf)
  {
    var p := ParseEpisodeUrl(slug, pathnameOf).value;
    var s, e :| SlugShape(slug, p.animeSlug, s, e) && p.season == DecimalValue(s) && p.episode == DecimalValue(e);
    var url := EpisodeBase + slug + "/";
    CanonicalUrlIsHttp(slug);
    CanonicalPathShape(slug);
    UrlAccepted(url, pathnameOf, [], slug, "/", p.animeSlug, s, e);
  }

  /**
   * The round trip fails for a slug holding `/`, which the slug pattern's `.`
   * accepts: the path pattern's segment excludes `/`, so the canonical URL
   * never parses back to the slug's record.
   */
  lemma SlashedSlugDoesNotReparse(slug: string, pathnameOf: string -> Option<string>)
    requires !StartsWith(slug, "http") && '/' in slug
    requires pathnameOf(EpisodeBase + slug + "/") == Some(EpisodeMarker + slug + "/")
    ensures ParseEpisodeUrl(slug, pathnameOf).Some? ==>
              ParseEpisodeUrl(EpisodeBase + slug + "/", pathnameOf) != ParseEpisodeUrl(slug, pathnameOf)
  {
    var url := EpisodeBase + slug + "/";
    CanonicalUrlIsHttp(slug);
    var again := ParseEpisodeUrl(url, pathnameOf);
    if again.Some? {
      var prefix, tail :| PathShape(EpisodeMarker + slug + "/", prefix, again.value.slug, tail);
      assert again.value.slug != slug;
    }
  }

  /** Such a slug is accepted when given bare: `a/b-1x1` parses. */
  lemma SlashedSlugAccepted(slug: string, pathnameOf: string -> Option<string>)
    requires slug == "a/b-1x1"
    ensures '/' in slug
    ensures ParseEpisodeUrl(slug, pathnameOf) == Some(ParsedEpisodeUrl(slug, "a/b", 1, 1, EpisodeBase + slug + "/"))
  {
    NotHttp(slug);
    SlashedShape();
    BareSlugAccepted(slug, "a/b", "1", "1", pathnameOf);
  }

  lemma SlashedShape()
    ensures SlugShape("a/b-1x1", "a/b", "1", "1") && "a/b-1x1"[1] == '/'
  {
    assert "a/b-1x1" == "a/b" + "-" + "1" + "x" + "1";
  }

  /**
   * A built slug that starts with `http` (anime slug `httpx`, say) is taken
   * for a URL, so it parses only through the URL parser: when the parser
   * throws, it gives nothing.
   */
  lemma HttpLookingSlugNeedsUrlParser(anime: string, season: nat, episode: nat, pathnameOf: string -> Option<string>)
    requires StartsWith(EpisodeSlug(anime, season, episode), "http")
    requires pathnameOf(EpisodeSlug(anime, season, episode)).None?
    ensures ParseEpisodeUrl(EpisodeSlug(anime, season, episode), pathnameOf) == None
  {
  }

  lemma CanonicalUrlIsHttp(slug: string)
    ensures StartsWith(EpisodeBase + slug + "/", "http")
  {
    assert (EpisodeBase + slug + "/")[..4] == EpisodeBase[..4];
  }

  lemma CanonicalPathShape(slug: string)
    requires |slug| > 0 && '/' !in slug
    ensures PathShape(EpisodeMarker + slug + "/", [], slug, "/")
  {
    assert EpisodeMarker + slug + "/" == [] + EpisodeMarker + slug + "/";
  }

  lemma NotHttp(s: string)
    requires |s| > 0 && s[0] != 'h'
    ensures !StartsWith(s, "http")
  {
    if |s| >= 4 {
      assert s[..4][0] == s[0];
    }
  }

  /** Season and episode are decimal values: leading zeros are dropped. */
  lemma LeadingZerosDropped(pathnameOf: string -> Option<string>)
    ensures ParseEpisodeUrl("show-01x002", pathnameOf)
            == Some(ParsedEpisodeUrl("show-01x002", "show", 1, 2, EpisodeBase + "show-01x002/"))
  {
    NotHttp("show-01x002");
    assert "show-01x002" == "show" + "-" + "01" + "x" + "002";
    PaddedDecimals();
    assert EpisodeBase + "show-01x002" + "/" == EpisodeBase + "show-01x002/";
    BareSlugAccepted("show-01x002", "show", "01", "002", pathnameOf);
  }

  lemma PaddedDecimals()
    ensures DecimalValue("01") == 1 && DecimalValue("002") == 2
  {
    assert "01" == "0" + "1" && "002" == "0" + "02" && "02" == "0" + "2";
    LeadingZeroIgnored("1");
    LeadingZeroIgnored("2");
    LeadingZeroIgnored("02");
  }

  /** Season and episode zero are accepted. */
  lemma SeasonZeroAccepted(pathnameOf: string -> Option<string>)
    ensures ParseEpisodeUrl("show-0x0", pathnameOf)
            == Some(ParsedEpisodeUrl("show-0x0", "show", 0, 0, EpisodeBase + "show-0x0/"))
  {
    NotHttp("show-0x0");
    assert "show-0x0" == "show" + "-" + "0" + "x" + "0";
    assert EpisodeBase + "show-0x0" + "/" == EpisodeBase + "show-0x0/";
    BareSlugAccepted("show-0x0", "show", "0", "0", pathnameOf);
  }

  /** The documented example: `naruto-shippuden-1x1`. */
  lemma NarutoShippuden(slug: string, pathnameOf: string -> Option<string>)
    requires slug == "naruto-shippuden-1x1"
    ensures ParseEpisodeUrl(slug, pathnameOf)
            == Some(ParsedEpisodeUrl(slug, "naruto-shippuden", 1, 1, EpisodeBase + slug + "/"))
  {
    NotHttp(slug);
    NarutoShape();
    BareSlugAccepted(slug, "naruto-shippuden", "1", "1", pathnameOf);
  }

  lemma NarutoShape()
    ensures SlugShape("naruto-shippuden-1x1", "naruto-shippuden", "1", "1")
  {
    assert "naruto-shippuden-1x1" == "naruto-shippuden" + "-" + "1" + "x" + "1";
  }

  lemma NotAValidFormat(pathnameOf: string -> Option<string>)
    ensures ParseEpisodeUrl("not-a-valid-format", pathnameOf) == None
  {
    var slug := "not-a-valid-format";
    NotHttp(slug);
    assert slug == "not-a-valid" + "-" + "format";
    LastDashBeforeDigits(slug, "not-a-valid", "format");
    assert slug[12..] == "format";
    assert IndexOf("format", 'x') == None;
    assert MatchSlug(slug) == None;
  }
}
