/**
 * Helpers that turn the fetcher's descriptive metadata into what the service
 * shows and embeds (app.py): the clean title and artist, the best thumbnail,
 * the available quality tiers, the duration label, the release year and the
 * centre crop used for square cover art.
 *
 * A metadata field that is missing is the empty string here: the source only
 * ever tests these fields for truthiness, and `None` and `''` are both false.
 */
module MediaInfo {
  import opened Text

  import opened Wrappers
  datatype Result<T, E> = Ok(value: T) | Err(error: E)

  /** The string fields of the fetcher's info dictionary that the helpers read. */
  datatype InfoFields = InfoFields(
    track: string, altTitle: string, title: string, fullTitle: string, description: string,
    artist: string, creator: string, uploader: string, channel: string)

  const TitleFallback: string := "download"
  const ArtistFallback: string := "Unknown"

  /** The title text before clean-up: `title or fulltitle`, else the first description line cut to 150. */
  function RawTitle(info: InfoFields): string {
    var t := if info.title != "" then info.title else info.fullTitle;
    if t == "" && info.description != "" then Prefix(BeforeFirst(info.description, '\n'), 150) else t
  }

  /**
   * `extract_clean_title`. `clean` stands for the three regular-expression
   * rewrites and the final strip, which the model leaves uninterpreted.
   * Preference order: `track`, then `alt_title` (each stripped, if at least
   * three characters long), then the cleaned raw title if that keeps at least
   * three characters, else `download`.
   */
  function ExtractCleanTitle(info: InfoFields, clean: string -> string): (r: string)
    ensures |r| >= 3
    ensures |Strip(info.track)| >= 3 ==> r == Strip(info.track)
    ensures |Strip(info.track)| < 3 && |Strip(info.altTitle)| >= 3 ==> r == Strip(info.altTitle)
    ensures |Strip(info.track)| < 3 && |Strip(info.altTitle)| < 3 ==>
              r == (if RawTitle(info) != "" && |clean(RawTitle(info))| >= 3 then clean(RawTitle(info)) else TitleFallback)
  {
    if |Strip(info.track)| >= 3 then Strip(info.track)
    else if |Strip(info.altTitle)| >= 3 then Strip(info.altTitle)
    else
      var title := RawTitle(info);
      if title == "" then TitleFallback
      else
        var cleaned := clean(title);
        if |cleaned| >= 3 then cleaned else TitleFallback
  }

  /** One chosen field with the suffix removed and stripped, or `Unknown` when nothing is left. */
  function CleanedOr(field: string, dropSuffix: string -> string): string {
    var s := Strip(dropSuffix(field));
    if s != "" then s else ArtistFallback
  }

  /**
   * `extract_clean_artist`. `dropSuffix` stands for the regular expression that
   * removes " - Official ..." style tails. The first non-empty of `artist`,
   * `creator`, `uploader`, `channel` is used, even when it cleans to nothing
   * (the result is then `Unknown`, never a later field).
   */
  function ExtractCleanArtist(info: InfoFields, dropSuffix: string -> string): (r: string)
    ensures r != ""
    ensures info.artist != "" ==> r == CleanedOr(info.artist, dropSuffix)
    ensures info.artist == "" && info.creator != "" ==> r == CleanedOr(info.creator, dropSuffix)
    ensures info.artist == "" && info.creator == "" && info.uploader != "" ==> r == CleanedOr(info.uploader, dropSuffix)
    ensures info.artist == "" && info.creator == "" && info.uploader == "" && info.channel != "" ==> r == CleanedOr(info.channel, dropSuffix)
    ensures info.artist == "" && info.creator == "" && info.uploader == "" && info.channel == "" ==> r == ArtistFallback
  {
    var a :=
      if info.artist != "" then info.artist
      else if info.creator != "" then info.creator
      else if info.uploader != "" then info.uploader
      else info.channel;
    var s := if a != "" then Strip(dropSuffix(a)) else "";
    if s != "" then s else ArtistFallback
  }

  /** One entry of `info['thumbnails']`; a missing height or width is 0, a missing url is "". */
  datatype Thumb = Thumb(height: int, width: int, url: string)

  function Area(t: Thumb): int { t.height * t.width }

  /** A thumbnail the service prefers: it has a url and it is not WebP. */
  predicate Preferred(t: Thumb) { t.url != "" && !EndsWith(t.url, ".webp") }

  predicate Eligible(t: Thumb, preferredOnly: bool) { !preferredOnly || Preferred(t) }

  /**
   * The position of the first eligible thumbnail in a stable sort by area,
   * largest first: the eligible one of greatest area, the earliest of those
   * on a tie.
   */
  function BestThumbIndex(ts: seq<Thumb>, preferredOnly: bool): (r: Option<nat>)
    ensures r.None? <==> forall j :: 0 <= j < |ts| ==> !Eligible(ts[j], preferredOnly)
    ensures r.Some? ==> r.value < |ts| && Eligible(ts[r.value], preferredOnly)
    ensures r.Some? ==> forall j :: 0 <= j < |ts| && Eligible(ts[j], preferredOnly) ==> Area(ts[j]) <= Area(ts[r.value])
    ensures r.Some? ==> forall j :: 0 <= j < r.value && Eligible(ts[j], preferredOnly) ==> Area(ts[j]) < Area(ts[r.value])
  {
    if |ts| == 0 then None
    else
      var rest := BestThumbIndex(ts[..|ts| - 1], preferredOnly);
      var last := |ts| - 1;
      if !Eligible(ts[last], preferredOnly) then rest
      else if rest.None? || Area(ts[last]) > Area(ts[rest.value]) then Some(last)
      else rest
  }

  /**
   * `get_best_thumbnail`: the largest non-WebP thumbnail with a url; failing
   * that, the url of the largest thumbnail; with no thumbnail list, the
   * single `thumbnail` field.
   */
  function BestThumbnail(ts: seq<Thumb>, single: string): (r: string)
    ensures ts == [] ==> r == single
    ensures (exists j :: 0 <= j < |ts| && Preferred(ts[j])) ==>
              exists i :: 0 <= i < |ts| && r == ts[i].url && Preferred(ts[i])
                && forall j :: 0 <= j < |ts| && Preferred(ts[j]) ==> Area(ts[j]) <= Area(ts[i])
    ensures ts != [] && (forall j :: 0 <= j < |ts| ==> !Preferred(ts[j])) ==>
              exists i :: 0 <= i < |ts| && r == ts[i].url && forall j :: 0 <= j < |ts| ==> Area(ts[j]) <= Area(ts[i])
  {
    if ts == [] then single
    else
      match BestThumbIndex(ts, true)
      case Some(i) => ts[i].url
      case None =>
        var k := BestThumbIndex(ts, false);
        assert Eligible(ts[0], false);
        ts[k.value].url
  }

  /** The quality tiers offered to the client. */
  datatype Tier = Best | P1080 | P720 | P480 | P360 | P144

  /** The sort key `int(x.replace('p', '').replace('best', '9999'))`. */
  function Rank(t: Tier): int {
    match t
    case Best => 9999
    case P1080 => 1080
    case P720 => 720
    case P480 => 480
    case P360 => 360
    case P144 => 144
  }

  function Label(t: Tier): string {
    match t
    case Best => "best"
    case P1080 => "1080p"
    case P720 => "720p"
    case P480 => "480p"
    case P360 => "360p"
    case P144 => "144p"
  }

  /** The tier a format height falls in; a falsy (0) height or one under 144 gives none. */
  function TierOf(h: int): (r: Option<Tier>)
    ensures r.Some? ==> r.value != Best && h >= Rank(r.value)
    ensures r.Some? && r.value != P1080 ==> h < 1080
  {
    if h == 0 then None
    else if h >= 1080 then Some(P1080)
    else if h >= 720 then Some(P720)
    else if h >= 480 then Some(P480)
    else if h >= 360 then Some(P360)
    else if h >= 144 then Some(P144)
    else None
  }

  /** Tier `t` is reached by some format height. */
  predicate Offered(heights: seq<int>, t: Tier) {
    exists i :: 0 <= i < |heights| && TierOf(heights[i]) == Some(t)
  }

  /** The set the loop over the formats builds: `best` and the tier of every truthy height. */
  function TierSet(heights: seq<int>): (r: set<Tier>)
    ensures Best in r
    ensures forall t :: t != Best ==> (t in r <==> Offered(heights, t))
  {
    {Best} + set i | 0 <= i < |heights| && TierOf(heights[i]).Some? :: TierOf(heights[i]).value
  }

  /** Every tier, by descending sort key. */
  const TiersDescending: seq<Tier> := [Best, P1080, P720, P480, P360, P144]

  predicate StrictlyDescending(ts: seq<Tier>) {
    forall i, j :: 0 <= i < j < |ts| ==> Rank(ts[i]) > Rank(ts[j])
  }

  /** The members of `s`, in the order `order` lists them. */
  function InOrder(s: set<Tier>, order: seq<Tier>): (r: seq<Tier>)
    requires StrictlyDescending(order)
    ensures StrictlyDescending(r)
    ensures forall t :: t in r <==> t in s && t in order
  {
    if order == [] then []
    else
      var rest := InOrder(s, order[1..]);
      forall j | 0 <= j < |rest| ensures Rank(order[0]) > Rank(rest[j]) {
        assert rest[j] in rest;
        assert rest[j] in order[1..];
        var k :| 0 <= k < |order[1..]| && order[1..][k] == rest[j];
        assert order[k + 1] == rest[j];
      }
      if order[0] in s then [order[0]] + rest else rest
  }

  /** `get_available_formats`: the tier set sorted by descending key. */
  function AvailableFormats(heights: seq<int>): (r: seq<Tier>)
  {
    InOrder(TierSet(heights), TiersDescending)
  }

  /**
   * The tier list always starts with `best`, is strictly descending by rank
   * (so it holds no tier twice), and holds a tier other than `best` exactly
   * when some format height reaches it.
   */
  lemma AvailableFormatsSpec(heights: seq<int>)
    ensures var r := AvailableFormats(heights);
      && |r| >= 1 && r[0] == Best
      && StrictlyDescending(r)
      && (forall t :: t != Best ==> (t in r <==> Offered(heights, t)))
  {
    var r := AvailableFormats(heights);
    assert StrictlyDescending(TiersDescending);
    assert forall t :: t in TiersDescending;
    assert Best in r;
    var k :| 0 <= k < |r| && r[k] == Best;
    if k != 0 {
      assert Rank(r[0]) > Rank(r[k]);
    }
  }

  /** A format list with no heights offers only `best`, as the route's empty-list case does. */
  lemma NoFormatsOnlyBest()
    ensures AvailableFormats([]) == [Best]
  {
    assert TierSet([]) == {Best};
    assert StrictlyDescending(TiersDescending);
    InOrderSingle(Best, TiersDescending);
  }

  /** Ordering a single tier gives that tier alone, when the order lists it. */
  lemma {:induction false} InOrderSingle(t: Tier, order: seq<Tier>)
    requires StrictlyDescending(order)
    ensures InOrder({t}, order) == if t in order then [t] else []
    decreases |order|
  {
    if order != [] {
      assert StrictlyDescending(order[1..]) by {
        forall i, j | 0 <= i < j < |order[1..]| ensures Rank(order[1..][i]) > Rank(order[1..][j]) {
          assert order[1..][i] == order[i + 1] && order[1..][j] == order[j + 1];
        }
      }
      InOrderSingle(t, order[1..]);
      if order[0] == t {
        assert t !in order[1..] by {
          forall k | 0 <= k < |order[1..]| ensures order[1..][k] != t {
            assert order[1..][k] == order[k + 1];
            assert Rank(order[0]) > Rank(order[k + 1]);
          }
        }
      } else {
        assert t in order <==> t in order[1..] by {
          assert order == [order[0]] + order[1..];
        }
      }
    }
  }

  const MaxDuration: nat := 14400

  /** The rejection text, with `MAX_DURATION // 3600` written out as 4. */
  const TooLongMessage: string := "Video too long. Max 4 hours allowed."

  /** `M:SS` with the minutes unpadded and the seconds padded to two digits. */
  function MinSec(m: nat, s: nat): string {
    NatToString(m) + ":" + Pad2(s)
  }

  /** `str(timedelta(seconds=d))` for a duration under a day: `H:MM:SS`. */
  function ClockText(d: nat): string
    requires d < 86400
  {
    var r := d % 3600;
    NatToString(d / 3600) + ":" + (Pad2(r / 60) + ":" + Pad2(r % 60))
  }

  /**
   * The duration checks and label of the video-info route: too long is an
   * error, 0 is `Unknown`, an hour or more is `H:MM:SS`, less is `M:SS`.
   */
  function DurationLabel(d: nat): (r: Result<string, string>)
    ensures r.Err? <==> d > MaxDuration
  {
    if d > MaxDuration then Err(TooLongMessage)
    else if d == 0 then Ok("Unknown")
    else if d >= 3600 then Ok(ClockText(d))
    else Ok(MinSec((d % 3600) / 60, d % 60))
  }

  /** The text before and after the first `c`, if there is one. */
  function SplitAt(s: string, c: char): Option<(string, string)>
  {
    if |s| == 0 then None
    else if s[0] == c then Some(("", s[1..]))
    else
      match SplitAt(s[1..], c)
      case Some(parts) => Some(([s[0]] + parts.0, parts.1))
      case None => None
  }

  /** Reading `A:B` (two digit strings around one colon) as minutes and seconds. */
  function ParseMinutes(s: string): (r: Option<nat>) {
    match SplitAt(s, ':')
    case Some((m, sec)) => if AllDigits(m) && AllDigits(sec) then Some(60 * ParseNat(m) + ParseNat(sec)) else None
    case None => None
  }

  /** Reading `A:B:C` as hours, minutes and seconds. */
  function ParseClock(s: string): (r: Option<nat>) {
    match SplitAt(s, ':')
    case Some((h, rest)) =>
      if AllDigits(h) then
        match ParseMinutes(rest)
        case Some(ms) => Some(3600 * ParseNat(h) + ms)
        case None => None
      else None
    case None => None
  }

  /** Splitting `a + [c] + b` at its first `c` gives back `a` and `b` when `a` holds no `c`. */
  lemma {:induction false} SplitAtJoin(a: string, b: string, c: char)
    requires c !in a
    ensures SplitAt(a + [c] + b, c) == Some((a, b))
    decreases |a|
  {
    var s := a + [c] + b;
    if |a| == 0 {
      assert s == [c] + b;
      assert s[1..] == b;
    } else {
      assert s[0] == a[0];
      assert s[1..] == a[1..] + [c] + b;
      SplitAtJoin(a[1..], b, c);
      assert [a[0]] + a[1..] == a;
    }
  }

  /** A digit string holds no colon, so the split finds it and the rest. */
  lemma SplitDigits(a: string, b: string)
    requires AllDigits(a)
    ensures SplitAt(a + ":" + b, ':') == Some((a, b))
  {
    assert forall k :: 0 <= k < |a| ==> a[k] != ':';
    SplitAtJoin(a, b, ':');
  }

  lemma MinSecRoundTrip(m: nat, s: nat)
    ensures ParseMinutes(MinSec(m, s)) == Some(60 * m + s)
  {
    SplitDigits(NatToString(m), Pad2(s));
    ParseNatToString(m);
    ParseNatPad2(s);
  }

  lemma PaddedMinSecRoundTrip(m: nat, s: nat)
    ensures ParseMinutes(Pad2(m) + ":" + Pad2(s)) == Some(60 * m + s)
  {
    SplitDigits(Pad2(m), Pad2(s));
    ParseNatPad2(m);
    ParseNatPad2(s);
  }

  lemma HourMinSecRoundTrip(hh: nat, m: nat, s: nat)
    ensures ParseClock(NatToString(hh) + ":" + (Pad2(m) + ":" + Pad2(s))) == Some(3600 * hh + 60 * m + s)
  {
    SplitDigits(NatToString(hh), Pad2(m) + ":" + Pad2(s));
    ParseNatToString(hh);
    PaddedMinSecRoundTrip(m, s);
  }

  lemma ClockTextRoundTrip(d: nat)
    requires d < 86400
    ensures ParseClock(ClockText(d)) == Some(d)
  {
    var r := d % 3600;
    var hh, m, sec := d / 3600, r / 60, r % 60;
    var text := NatToString(hh) + ":" + (Pad2(m) + ":" + Pad2(sec));
    assert ClockText(d) == text;
    HourMinSecRoundTrip(hh, m, sec);
    ClockParts(d);
    assert 3600 * hh + 60 * m + sec == d;
    assert ParseClock(text) == Some(d);
  }

  lemma ClockParts(d: nat)
    ensures 3600 * (d / 3600) + 60 * ((d % 3600) / 60) + (d % 3600) % 60 == d
  {
    var r := d % 3600;
    assert d == 3600 * (d / 3600) + r;
    assert r == 60 * (r / 60) + r % 60;
  }

  /** Every label the route shows for an accepted, known duration reads back as that duration. */
  lemma DurationLabelRoundTrip(d: nat)
    requires 0 < d <= MaxDuration
    ensures DurationLabel(d).Ok?
    ensures d < 3600 ==> ParseMinutes(DurationLabel(d).value) == Some(d)
    ensures d >= 3600 ==> ParseClock(DurationLabel(d).value) == Some(d)
  {
    if d < 3600 {
      assert d % 3600 == d;
      var m, sec := d / 60, d % 60;
      var text := MinSec(m, sec);
      assert DurationLabel(d) == Ok(text);
      MinSecRoundTrip(m, sec);
      assert 60 * m + sec == d;
      assert ParseMinutes(text) == Some(d);
    } else {
      var text := ClockText(d);
      assert DurationLabel(d) == Ok(text);
      ClockTextRoundTrip(d);
      assert ParseClock(text) == Some(d);
    }
  }

  /** `upload_date[:4]` when the date has at least four characters, else no year. */
  function Year(uploadDate: string): (r: Option<string>)
    ensures r.Some? <==> |uploadDate| >= 4
    ensures r.Some? ==> |r.value| == 4 && StartsWith(uploadDate, r.value)
  {
    if uploadDate != "" && |uploadDate| >= 4 then Some(uploadDate[..4]) else None
  }

  /** A PIL crop box `(left, top, right, bottom)`. */
  datatype Box = Box(left: nat, top: nat, right: nat, bottom: nat)

  /**
   * The centre crop of `download_thumbnail`: for a non-square image, the
   * largest centred square (rounding the offset down); a square image is
   * left uncropped.
   */
  function CenterCrop(w: nat, h: nat): (r: Option<Box>)
    ensures r.None? <==> w == h
    ensures r.Some? ==> var b := r.value;
      && b.right - b.left == b.bottom - b.top == (if w < h then w else h)
      && b.right <= w && b.bottom <= h
      && 2 * b.left <= w - (b.right - b.left) <= 2 * b.left + 1
      && 2 * b.top <= h - (b.bottom - b.top) <= 2 * b.top + 1
  {
    if w == h then None
    else
      var side := if w < h then w else h;
      var left := (w - side) / 2;
      var top := (h - side) / 2;
      Some(Box(left, top, left + side, top + side))
  }
}
