/**
 * URL helpers of app.py: which links the service accepts (`validate_url`),
 * the rewrite of YouTube short forms to a canonical watch link
 * (`normalize_youtube_url`) and the platform name shown to the client
 * (`get_platform`). URL parsing itself is not modelled: every helper takes the
 * pieces `urlparse` and `parse_qs` would have produced.
 */
module Urls {
  import opened Text

  import opened Wrappers

  /**
   * A URL split into its network location, path and raw query string, with
   * `params` holding the first value of every query key `parse_qs` keeps.
   */
  datatype ParsedUrl = ParsedUrl(raw: string, netloc: string, path: string, query: string, params: map<string, string>)

  const WatchPrefix: string := "https://www.youtube.com/watch?v="

  function WatchUrl(id: string): (r: string)
    ensures StartsWith(r, WatchPrefix) && r[|WatchPrefix|..] == id
  {
    WatchPrefix + id
  }

  /** `netloc.replace('www.', '').replace('m.', '').replace('web.', '').lower()`: every occurrence, not only a prefix. */
  function ValidationDomain(netloc: string): (r: string)
    ensures |r| <= |netloc|
    ensures forall i :: 0 <= i < |r| ==> !('A' <= r[i] <= 'Z')
  {
    Lower(ReplaceAll(ReplaceAll(ReplaceAll(netloc, "www.", ""), "m.", ""), "web.", ""))
  }

  const FacebookMarkers: seq<string> := ["/watch", "/reel/", "/reels/", "/videos/", "video.php", "v="]
  const OtherPlatformHosts: seq<string> := ["instagram.com", "tiktok.com", "vm.tiktok.com", "twitter.com", "x.com", "t.co"]

  predicate ContainsAny(s: string, ps: seq<string>) {
    exists i :: 0 <= i < |ps| && Contains(s, ps[i])
  }

  /** The decision of `validate_url` once the domain has been computed. */
  predicate AcceptsWithDomain(u: ParsedUrl, domain: string) {
    if domain == "youtube.com" || domain == "youtu.be" then
      if domain == "youtube.com" then "v" in u.params || Contains(u.path, "/shorts/") || Contains(u.path, "/watch")
      else |StripBy(u.path, IsSlash)| > 0
    else if Contains(domain, "facebook.com") || domain == "fb.watch" || domain == "fb.com" then
      if Contains(u.path, "/profile.php") && !Contains(u.query, "v=") then false
      else if u.path == "" || u.path == "/" then false
      else ContainsAny(u.raw, FacebookMarkers)
    else ContainsAny(domain, OtherPlatformHosts)
  }

  predicate IsSlash(c: char) { c == '/' }

  /** `validate_url`, as written. */
  predicate ValidateUrl(u: ParsedUrl) {
    AcceptsWithDomain(u, ValidationDomain(u.netloc))
  }

  /** The evidently intended domain: lower-cased, with one leading `www.`, `m.` or `web.` label removed. */
  function HostDomain(netloc: string): (r: string)
    ensures EndsWith(Lower(netloc), r)
  {
    var d := Lower(netloc);
    if StartsWith(d, "www.") then d[4..]
    else if StartsWith(d, "m.") then d[2..]
    else if StartsWith(d, "web.") then d[4..]
    else d
  }

  /** `validate_url` with the domain computed by `HostDomain`. */
  predicate ValidateUrlFixed(u: ParsedUrl) {
    AcceptsWithDomain(u, HostDomain(u.netloc))
  }

  predicate IsIdChar(c: char) {
    IsAsciiLetter(c) || IsAsciiDigit(c) || c == '_' || c == '-'
  }

  predicate AllIdChars(s: string) {
    forall i :: 0 <= i < |s| ==> IsIdChar(s[i])
  }

  /** A `/shorts/` marker followed by an id character starts at position `i` of `path`. */
  predicate ShortsAt(path: string, i: nat) {
    i + 9 <= |path| && path[i..i + 8] == "/shorts/" && IsIdChar(path[i + 8])
  }

  /** The leftmost position, from `i` on, where `re.search` finds a match. */
  function FirstShorts(path: string, i: nat): (r: Option<nat>)
    ensures r.Some? ==> i <= r.value && ShortsAt(path, r.value)
    ensures r.Some? ==> forall j :: i <= j < r.value ==> !ShortsAt(path, j)
    ensures r.None? ==> forall j :: i <= j ==> !ShortsAt(path, j)
    decreases |path| - i
  {
    if i + 9 > |path| then None
    else if ShortsAt(path, i) then Some(i)
    else FirstShorts(path, i + 1)
  }

  /** The longest run of id characters at the start of `s`. */
  function IdRun(s: string): (r: string)
    ensures StartsWith(s, r) && AllIdChars(r)
    ensures |r| == |s| || !IsIdChar(s[|r|])
  {
    s[..LeadingCount(s, IsIdChar)]
  }

  /**
   * `re.search(r'/shorts/([a-zA-Z0-9_-]+)', path).group(1)`: the id after the
   * leftmost `/shorts/` that is followed by an id character, taken as long as
   * possible; none when there is no such marker.
   */
  function ShortsId(path: string): (r: Option<string>)
    ensures r.None? <==> forall j :: !ShortsAt(path, j)
    ensures r.Some? ==> r.value != "" && AllIdChars(r.value) && Contains(path, "/shorts/" + r.value)
    ensures r.Some? ==> Contains(path, "/shorts/")
  {
    match FirstShorts(path, 0)
    case None => None
    case Some(i) =>
      var id := IdRun(path[i + 8..]);
      assert id[0] == path[i + 8];
      assert path[i..i + 8 + |id|] == "/shorts/" + id;
      ContainsAt(path, "/shorts/" + id, i);
      ContainsAt(path, "/shorts/", i);
      Some(id)
  }

  /** The `netloc.replace('www.', '').replace('m.', '')` of `normalize_youtube_url` (no lower-casing there). */
  function NormalizationDomain(netloc: string): string {
    ReplaceAll(ReplaceAll(netloc, "www.", ""), "m.", "")
  }

  /**
   * `normalize_youtube_url`: a YouTube link with a `v` parameter or a shorts
   * path, or a `youtu.be` link with a non-empty path, becomes
   * `https://www.youtube.com/watch?v=<id>`; anything else is returned as it came.
   */
  function NormalizeYoutubeUrl(u: ParsedUrl): (r: string)
    ensures r == u.raw || StartsWith(r, WatchPrefix)
    ensures Contains(NormalizationDomain(u.netloc), "youtube.com") && "v" in u.params ==> r == WatchUrl(u.params["v"])
    ensures !Contains(NormalizationDomain(u.netloc), "youtube.com") && !Contains(NormalizationDomain(u.netloc), "youtu.be") ==> r == u.raw
    ensures Contains(NormalizationDomain(u.netloc), "youtube.com") && "v" !in u.params && ShortsId(u.path).Some? ==>
      r == WatchUrl(ShortsId(u.path).value)
    ensures Contains(NormalizationDomain(u.netloc), "youtube.com") && "v" !in u.params && ShortsId(u.path).None? ==> r == u.raw
    ensures !Contains(NormalizationDomain(u.netloc), "youtube.com") && Contains(NormalizationDomain(u.netloc), "youtu.be") ==>
      r == (if StripBy(u.path, IsSlash) != "" then WatchUrl(StripBy(u.path, IsSlash)) else u.raw)
  {
    var domain := NormalizationDomain(u.netloc);
    if Contains(domain, "youtube.com") then
      if "v" in u.params then WatchUrl(u.params["v"])
      else if Contains(u.path, "/shorts/") then
        match ShortsId(u.path)
        case Some(id) => WatchUrl(id)
        case None => u.raw
      else u.raw
    else if Contains(domain, "youtu.be") then
      var vid := StripBy(u.path, IsSlash);
      if vid != "" then WatchUrl(vid) else u.raw
    else u.raw
  }

  /** Platform names shown to the client. */
  datatype Platform = YouTube | Facebook | Instagram | TikTok | TwitterX | UnknownPlatform

  function PlatformName(p: Platform): string {
    match p
    case YouTube => "YouTube"
    case Facebook => "Facebook"
    case Instagram => "Instagram"
    case TikTok => "TikTok"
    case TwitterX => "Twitter/X"
    case UnknownPlatform => "Unknown"
  }

  predicate YouTubeHost(d: string) { Contains(d, "youtube") || Contains(d, "youtu.be") }
  predicate FacebookHost(d: string) { Contains(d, "facebook") || Contains(d, "fb.") }
  predicate TwitterHost(d: string) { Contains(d, "twitter") || Contains(d, "x.com") }

  /**
   * `get_platform`: the first platform, in the order YouTube, Facebook,
   * Instagram, TikTok, Twitter/X, whose marker occurs in the lower-cased
   * network location.
   */
  function GetPlatform(netloc: string): (r: Platform)
    ensures var d := Lower(netloc);
      && (r == YouTube <==> YouTubeHost(d))
      && (r == Facebook <==> !YouTubeHost(d) && FacebookHost(d))
      && (r == Instagram <==> !YouTubeHost(d) && !FacebookHost(d) && Contains(d, "instagram"))
      && (r == TikTok <==> !YouTubeHost(d) && !FacebookHost(d) && !Contains(d, "instagram") && Contains(d, "tiktok"))
      && (r == UnknownPlatform <==> !YouTubeHost(d) && !FacebookHost(d) && !Contains(d, "instagram") && !Contains(d, "tiktok") && !TwitterHost(d))
  {
    var d := Lower(netloc);
    if YouTubeHost(d) then YouTube
    else if FacebookHost(d) then Facebook
    else if Contains(d, "instagram") then Instagram
    else if Contains(d, "tiktok") then TikTok
    else if TwitterHost(d) then TwitterX
    else UnknownPlatform
  }

  /** A string without upper-case ASCII letters is its own lower-case form. */
  lemma LowerKeeps(s: string)
    requires forall i :: 0 <= i < |s| ==> !('A' <= s[i] <= 'Z')
    ensures Lower(s) == s
  {
  }

  lemma {:induction false} ShortNotContained(s: string, t: string)
    requires |s| < |t|
    ensures !Contains(s, t)
    decreases |s|
  {
    if |s| > 0 {
      ShortNotContained(s[1..], t);
    }
  }

  /** A single occurrence of the pattern, after a stretch that cannot start one and before a rest that lacks `c`, is replaced. */
  lemma ReplaceOnce(front: string, tail: string, pat: string, rep: string, c: char)
    requires |pat| > 0 && pat[0] !in front && c in pat && c !in tail
    ensures ReplaceAll(front + (pat + tail), pat, rep) == front + (rep + tail)
  {
    ReplaceAllSkip(front, pat + tail, pat, rep);
    ReplaceAllHead(tail, pat, rep);
    ReplaceAllUnchanged(tail, pat, rep, c);
  }

  /** `"instagram.com".replace('m.', '')` cuts the `m.` out of the host name. */
  lemma InstagramLosesMDot(a: string)
    requires a == "instagram.com"
    ensures ReplaceAll(a, "m.", "") == "instagracom"
  {
    assert a == "instagra" + ("m." + "com");
    ReplaceOnce("instagra", "com", "m.", "", '.');
    assert "instagra" + ("" + "com") == "instagracom";
  }

  /** A host ending in `com` without an inner `m.` keeps its final `m`. */
  lemma FinalMKept(d: string, front: string)
    requires |front| > 0 && 'm' !in front && d == front + "m"
    ensures ReplaceAll(d, "m.", "") == d
  {
    ReplaceAllSkip(front, "m", "m.", "");
    ShortNotContained("m", "m.");
    ReplaceAllAbsent("m", "m.", "");
  }

  /** Removing a leading `www.` from `www.` + a host without `w`. */
  lemma DropWww(n: string, rest: string)
    requires n == "www." + rest && 'w' !in rest
    ensures ReplaceAll(n, "www.", "") == rest
  {
    ReplaceAllHead(rest, "www.", "");
    ReplaceAllUnchanged(rest, "www.", "", 'w');
  }

  /**
   * Both domain rewrites step by step: `n` loses its `www.` to give `a`, `a`
   * loses its `m.` to give `b`, and `b` has no `web.` and no upper-case letter.
   */
  lemma DomainSteps(n: string, a: string, b: string)
    requires ReplaceAll(n, "www.", "") == a && ReplaceAll(a, "m.", "") == b && ReplaceAll(b, "web.", "") == b
    requires forall i :: 0 <= i < |b| ==> !('A' <= b[i] <= 'Z')
    ensures NormalizationDomain(n) == b && ValidationDomain(n) == b
  {
    LowerKeeps(b);
  }

  lemma InstagramWww(n: string, a: string)
    requires (n == "www.instagram.com" || n == "instagram.com") && a == "instagram.com"
    ensures ReplaceAll(n, "www.", "") == a
  {
    if n == "www.instagram.com" {
      DropWww(n, a);
    } else {
      ReplaceAllUnchanged(n, "www.", "", 'w');
    }
  }

  lemma InstagramSteps(n: string, a: string, b: string)
    requires (n == "www.instagram.com" || n == "instagram.com") && a == "instagram.com" && b == "instagracom"
    ensures ReplaceAll(n, "www.", "") == a && ReplaceAll(a, "m.", "") == b && ReplaceAll(b, "web.", "") == b
    ensures forall i :: 0 <= i < |b| ==> !('A' <= b[i] <= 'Z')
  {
    InstagramWww(n, a);
    InstagramLosesMDot(a);
    MangledNoWeb(b);
    MangledLower(b);
  }

  lemma MangledNoWeb(a: string)
    requires a == "instagracom"
    ensures ReplaceAll(a, "web.", "") == a
  {
    ReplaceAllUnchanged(a, "web.", "", 'w');
  }

  lemma MangledLower(a: string)
    requires a == "instagracom"
    ensures forall i :: 0 <= i < |a| ==> !('A' <= a[i] <= 'Z')
  {
  }

  /** `www.instagram.com` and `instagram.com` both become `instagracom` under validation. */
  lemma InstagramDomainMangled(n: string)
    requires n == "www.instagram.com" || n == "instagram.com"
    ensures ValidationDomain(n) == "instagracom"
  {
    InstagramSteps(n, "instagram.com", "instagracom");
    DomainSteps(n, "instagram.com", "instagracom");
  }

  /** No supported marker occurs in `instagracom`: each needs a `.`. */
  lemma MangledInstagramRejected(u: ParsedUrl)
    requires ValidationDomain(u.netloc) == "instagracom"
    ensures !ValidateUrl(u)
  {
    var d := ValidationDomain(u.netloc);
    MissingCharNotContained(d, "facebook.com", '.');
    forall i | 0 <= i < |OtherPlatformHosts| ensures !Contains(d, OtherPlatformHosts[i]) {
      MissingCharNotContained(d, OtherPlatformHosts[i], '.');
    }
  }

  /** As written, no Instagram link on the bare or `www.` host is ever accepted. */
  lemma InstagramRejectedAsWritten(u: ParsedUrl)
    requires u.netloc == "www.instagram.com" || u.netloc == "instagram.com"
    ensures !ValidateUrl(u)
  {
    InstagramDomainMangled(u.netloc);
    MangledInstagramRejected(u);
  }

  /** Dropping the leading label of the three Instagram hosts. */
  lemma InstagramHost(n: string)
    requires n == "www.instagram.com" || n == "instagram.com" || n == "m.instagram.com"
    ensures HostDomain(n) == "instagram.com"
  {
    LowerKeeps(n);
    if n == "www.instagram.com" {
      WwwInstagramHost(n);
    } else if n == "m.instagram.com" {
      MobileInstagramHost(n);
    } else {
      BareInstagramHost(n);
    }
  }

  lemma WwwInstagramHost(d: string)
    requires d == "www.instagram.com"
    ensures StartsWith(d, "www.") && d[4..] == "instagram.com"
  {
  }

  lemma MobileInstagramHost(d: string)
    requires d == "m.instagram.com"
    ensures !StartsWith(d, "www.") && StartsWith(d, "m.") && d[2..] == "instagram.com"
  {
    assert d[0] == 'm';
  }

  lemma BareInstagramHost(d: string)
    requires d == "instagram.com"
    ensures !StartsWith(d, "www.") && !StartsWith(d, "m.") && !StartsWith(d, "web.")
  {
    assert d[0] == 'i';
  }

  /** `instagram.com` is neither a YouTube nor a Facebook host, and is the first other-platform marker. */
  lemma InstagramMarkers(d: string)
    requires d == "instagram.com"
    ensures d != "youtube.com" && d != "youtu.be" && d != "fb.watch" && d != "fb.com"
    ensures !Contains(d, "facebook.com") && Contains(d, OtherPlatformHosts[0])
  {
    MissingCharNotContained(d, "facebook.com", 'f');
    SelfContained(d);
  }

  lemma SelfContained(d: string)
    ensures Contains(d, d)
  {
    ContainsAt(d, d, 0);
  }

  /** With only a leading label removed, every Instagram link on those hosts is accepted. */
  lemma InstagramAcceptedFixed(u: ParsedUrl)
    requires u.netloc == "www.instagram.com" || u.netloc == "instagram.com" || u.netloc == "m.instagram.com"
    ensures HostDomain(u.netloc) == "instagram.com"
    ensures ValidateUrlFixed(u)
  {
    InstagramHost(u.netloc);
    InstagramMarkers(HostDomain(u.netloc));
  }

  lemma RedditWww(n: string, a: string)
    requires n == "www.reddit.com" && a == "reddit.com"
    ensures ReplaceAll(n, "www.", "") == a
  {
    DropWww(n, a);
  }

  lemma RedditFinalM(a: string)
    requires a == "reddit.com"
    ensures ReplaceAll(a, "m.", "") == a
  {
    FinalMKept(a, "reddit.co");
  }

  lemma RedditSteps(n: string, a: string)
    requires n == "www.reddit.com" && a == "reddit.com"
    ensures ReplaceAll(n, "www.", "") == a && ReplaceAll(a, "m.", "") == a && ReplaceAll(a, "web.", "") == a
    ensures forall i :: 0 <= i < |a| ==> !('A' <= a[i] <= 'Z')
  {
    RedditWww(n, a);
    RedditFinalM(a);
    RedditNoWeb(a);
    RedditLower(a);
  }

  lemma RedditNoWeb(a: string)
    requires a == "reddit.com"
    ensures ReplaceAll(a, "web.", "") == a
  {
    ReplaceAllUnchanged(a, "web.", "", 'w');
  }

  lemma RedditLower(a: string)
    requires a == "reddit.com"
    ensures forall i :: 0 <= i < |a| ==> !('A' <= a[i] <= 'Z')
  {
  }

  /** `www.reddit.com` validates as `reddit.com`. */
  lemma RedditDomain(n: string)
    requires n == "www.reddit.com"
    ensures ValidationDomain(n) == "reddit.com"
  {
    RedditSteps(n, "reddit.com");
    DomainSteps(n, "reddit.com", "reddit.com");
  }

  /** `reddit.com` is not a Facebook host, yet holds the marker `t.co`. */
  lemma RedditMarkers(d: string)
    requires d == "reddit.com"
    ensures d != "youtube.com" && d != "youtu.be" && d != "fb.watch" && d != "fb.com"
    ensures !Contains(d, "facebook.com") && Contains(d, OtherPlatformHosts[5])
  {
    MissingCharNotContained(d, "facebook.com", 'f');
    assert d[5..9] == OtherPlatformHosts[5];
    ContainsAt(d, OtherPlatformHosts[5], 5);
  }

  /** A `t.co` marker occurs inside `reddit.com`, so a Reddit link passes validation. */
  lemma RedditAccepted(u: ParsedUrl)
    requires u.netloc == "www.reddit.com"
    ensures ValidateUrl(u)
  {
    RedditDomain(u.netloc);
    RedditMarkers(ValidationDomain(u.netloc));
  }

  lemma YoutubeWww(n: string, a: string)
    requires n == "www.youtube.com" && a == "youtube.com"
    ensures ReplaceAll(n, "www.", "") == a
  {
    DropWww(n, a);
  }

  lemma YoutubeFinalM(a: string)
    requires a == "youtube.com"
    ensures ReplaceAll(a, "m.", "") == a
  {
    FinalMKept(a, "youtube.co");
  }

  lemma YoutubeSteps(n: string, a: string)
    requires n == "www.youtube.com" && a == "youtube.com"
    ensures ReplaceAll(n, "www.", "") == a && ReplaceAll(a, "m.", "") == a && ReplaceAll(a, "web.", "") == a
    ensures forall i :: 0 <= i < |a| ==> !('A' <= a[i] <= 'Z')
  {
    YoutubeWww(n, a);
    YoutubeFinalM(a);
    YoutubeNoWeb(a);
    YoutubeLower(a);
  }

  lemma YoutubeNoWeb(a: string)
    requires a == "youtube.com"
    ensures ReplaceAll(a, "web.", "") == a
  {
    ReplaceAllUnchanged(a, "web.", "", 'w');
  }

  lemma YoutubeLower(a: string)
    requires a == "youtube.com"
    ensures forall i :: 0 <= i < |a| ==> !('A' <= a[i] <= 'Z')
  {
  }

  /** `www.youtube.com` becomes `youtube.com` under both domain rewrites (its final `m` is not followed by a dot). */
  lemma YoutubeDomain(n: string)
    requires n == "www.youtube.com"
    ensures NormalizationDomain(n) == "youtube.com"
    ensures ValidationDomain(n) == "youtube.com"
  {
    YoutubeSteps(n, "youtube.com");
    DomainSteps(n, "youtube.com", "youtube.com");
  }

  /** The path `/watch` holds the marker `/watch`. */
  lemma WatchPath(p: string)
    requires p == "/watch"
    ensures Contains(p, "/watch")
  {
    ContainsAt(p, "/watch", 0);
  }

  /** Any watch link on `www.youtube.com` passes validation, whatever its query. */
  lemma WatchLinkValid(u: ParsedUrl)
    requires u.netloc == "www.youtube.com" && u.path == "/watch"
    ensures ValidateUrl(u)
  {
    YoutubeDomain(u.netloc);
    WatchPath(u.path);
  }

  /**
   * What normalization produces validates: a rewritten link is the watch link
   * of the id after the prefix, and that link, read back by `urlparse` as host
   * `www.youtube.com`, path `/watch` and query `v=<id>`, is accepted.
   */
  lemma NormalizedValid(u: ParsedUrl)
    requires NormalizeYoutubeUrl(u) != u.raw
    ensures StartsWith(NormalizeYoutubeUrl(u), WatchPrefix)
    ensures var r := NormalizeYoutubeUrl(u); var id := r[|WatchPrefix|..];
      r == WatchUrl(id) && ValidateUrl(ParsedUrl(r, "www.youtube.com", "/watch", "v=" + id, map["v" := id]))
  {
    var r := NormalizeYoutubeUrl(u);
    var id := r[|WatchPrefix|..];
    assert r == WatchPrefix + id;
    WatchLinkValid(ParsedUrl(r, "www.youtube.com", "/watch", "v=" + id, map["v" := id]));
  }

  lemma ShortHostNoWww(n: string)
    requires n == "youtu.be"
    ensures ReplaceAll(n, "www.", "") == n
  {
    ReplaceAllUnchanged(n, "www.", "", 'w');
  }

  lemma ShortHostNoMDot(n: string)
    requires n == "youtu.be"
    ensures ReplaceAll(n, "m.", "") == n
  {
    ReplaceAllUnchanged(n, "m.", "", 'm');
  }

  lemma ShortHostNoWeb(a: string)
    requires a == "youtu.be"
    ensures ReplaceAll(a, "web.", "") == a
  {
    ReplaceAllUnchanged(a, "web.", "", 'w');
  }

  lemma ShortHostLower(a: string)
    requires a == "youtu.be"
    ensures forall i :: 0 <= i < |a| ==> !('A' <= a[i] <= 'Z')
  {
  }

  lemma ShortHostSteps(n: string)
    requires n == "youtu.be"
    ensures ReplaceAll(n, "www.", "") == n && ReplaceAll(n, "m.", "") == n && ReplaceAll(n, "web.", "") == n
    ensures forall i :: 0 <= i < |n| ==> !('A' <= n[i] <= 'Z')
  {
    ShortHostNoWww(n);
    ShortHostNoMDot(n);
    ShortHostNoWeb(n);
    ShortHostLower(n);
  }

  /** `youtu.be` is untouched by both domain rewrites. */
  lemma ShortHostDomain(n: string)
    requires n == "youtu.be"
    ensures NormalizationDomain(n) == n && ValidationDomain(n) == n
  {
    ShortHostSteps(n);
    DomainSteps(n, n, n);
  }

  /** `youtu.be` holds `youtu.be` but not `youtube.com`. */
  lemma ShortHostMarkers(n: string)
    requires n == "youtu.be"
    ensures !Contains(n, "youtube.com") && Contains(n, "youtu.be")
  {
    MissingCharNotContained(n, "youtube.com", 'm');
    SelfContained(n);
  }

  /**
   * On `youtu.be` the two helpers agree: a link is accepted exactly when its
   * path holds something besides slashes, and exactly those links are
   * rewritten to the watch form of that path.
   */
  lemma ShortLinkConsistent(u: ParsedUrl)
    requires u.netloc == "youtu.be"
    ensures ValidateUrl(u) <==> StripBy(u.path, IsSlash) != ""
    ensures ValidateUrl(u) ==> NormalizeYoutubeUrl(u) == WatchUrl(StripBy(u.path, IsSlash))
    ensures !ValidateUrl(u) ==> NormalizeYoutubeUrl(u) == u.raw
  {
    ShortHostDomain(u.netloc);
    ShortHostMarkers(u.netloc);
  }
}
