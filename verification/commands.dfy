/**
 * The output formats of app.py and the encoder argument lists built from
 * them: the audio format table (`AUDIO_FORMATS`), the fallback of an unknown
 * audio format to MP3, the per-quality video encode settings
 * (`VIDEO_ENCODE_SETTINGS`) and the two `ffmpeg` command lines of
 * `run_conversion`.
 */
module Commands {
  import opened Text

  import opened Wrappers

  /** The keys of `AUDIO_FORMATS`. */
  datatype AudioFormat = Mp3 | Aac | Opus | Ogg

  function Key(f: AudioFormat): string {
    match f
    case Mp3 => "mp3"
    case Aac => "aac"
    case Opus => "opus"
    case Ogg => "ogg"
  }

  /** File extension of the finished file, without the dot. */
  function Extension(f: AudioFormat): string {
    match f
    case Mp3 => "mp3"
    case Aac => "m4a"
    case Opus => "opus"
    case Ogg => "ogg"
  }

  function Codec(f: AudioFormat): string {
    match f
    case Mp3 => "libmp3lame"
    case Aac => "aac"
    case Opus => "libopus"
    case Ogg => "libvorbis"
  }

  function Bitrate(f: AudioFormat): string {
    match f
    case Mp3 => "320k"
    case Aac => "256k"
    case Opus => "192k"
    case Ogg => "192k"
  }

  function SampleRate(f: AudioFormat): string {
    match f
    case Opus => "48000"
    case _ => "44100"
  }

  function Mime(f: AudioFormat): string {
    match f
    case Mp3 => "audio/mpeg"
    case Aac => "audio/mp4"
    case Opus => "audio/opus"
    case Ogg => "audio/ogg"
  }

  /** Display name, used in the `Converting to ...` message. */
  function Name(f: AudioFormat): string {
    match f
    case Mp3 => "MP3"
    case Aac => "AAC (M4A)"
    case Opus => "OPUS"
    case Ogg => "OGG Vorbis"
  }

  /** The `quality` recorded on a completed audio task. */
  function QualityLabel(f: AudioFormat): string {
    match f
    case Mp3 => "320kbps"
    case Aac => "256kbps"
    case Opus => "192kbps"
    case Ogg => "192kbps"
  }

  /** `s in AUDIO_FORMATS`, and which entry. */
  function ParseAudioFormat(s: string): (r: Option<AudioFormat>)
    ensures r.Some? ==> Key(r.value) == s
    ensures r.None? ==> forall f :: Key(f) != s
  {
    if s == "mp3" then Some(Mp3)
    else if s == "aac" then Some(Aac)
    else if s == "opus" then Some(Opus)
    else if s == "ogg" then Some(Ogg)
    else None
  }

  /** Every table key reads back as its own entry. */
  lemma KeyRoundTrip(f: AudioFormat)
    ensures ParseAudioFormat(Key(f)) == Some(f)
  {
    match f
    case Mp3 =>
    case Aac =>
    case Opus =>
    case Ogg =>
  }

  /**
   * The `/api/convert` fallback: for an audio request, a format that is not
   * in the table becomes `mp3`; a known format, or any format of a video
   * request, is kept.
   */
  function EffectiveAudioFormat(formatType: string, requested: string): (r: string)
    ensures formatType == "audio" ==> ParseAudioFormat(r).Some?
    ensures ParseAudioFormat(requested).Some? ==> r == requested
    ensures formatType != "audio" ==> r == requested
    ensures r == requested || r == "mp3"
  {
    if formatType == "audio" && ParseAudioFormat(requested).None? then "mp3" else requested
  }

  /** One row of `VIDEO_ENCODE_SETTINGS`; `None` stands for Python's `None`. */
  datatype VideoSettings = VideoSettings(scale: Option<string>, crf: string, maxrate: Option<string>, bufsize: Option<string>)

  const BestSettings: VideoSettings := VideoSettings(None, "20", None, None)

  /** `VIDEO_ENCODE_SETTINGS.get(quality, VIDEO_ENCODE_SETTINGS['best'])` */
  function SettingsFor(quality: string): (r: VideoSettings)
    ensures r.crf != ""
    ensures r.scale.Some? <==> r.maxrate.Some?
    ensures r.maxrate.Some? <==> r.bufsize.Some?
  {
    if quality == "1080p" then VideoSettings(Some("-2:1080"), "20", Some("5000k"), Some("10000k"))
    else if quality == "720p" then VideoSettings(Some("-2:720"), "22", Some("2500k"), Some("5000k"))
    else if quality == "480p" then VideoSettings(Some("-2:480"), "24", Some("1500k"), Some("3000k"))
    else if quality == "360p" then VideoSettings(Some("-2:360"), "26", Some("800k"), Some("1600k"))
    else if quality == "144p" then VideoSettings(Some("-2:144"), "28", Some("400k"), Some("800k"))
    else BestSettings
  }

  /** Only the named tiers are scaled; `best` and any unknown quality keep the source size. */
  lemma UnknownQualityUnscaled(quality: string)
    requires quality !in {"1080p", "720p", "480p", "360p", "144p"}
    ensures SettingsFor(quality) == BestSettings && SettingsFor(quality).scale.None?
  {
  }

  /** The audio conversion command: strip video, re-encode to the format's codec, write `output`. */
  function AudioCommand(input: string, f: AudioFormat, output: string): seq<string> {
    ["ffmpeg", "-y", "-i", input, "-vn", "-c:a", Codec(f), "-b:a", Bitrate(f), "-ar", SampleRate(f), "-ac", "2", output]
  }

  /** The audio command reads `input`, drops the video, writes `output` with the format's codec and bitrate. */
  lemma AudioCommandSpec(input: string, f: AudioFormat, output: string)
    ensures var r := AudioCommand(input, f, output);
      && |r| >= 5 && r[..4] == ["ffmpeg", "-y", "-i", input] && r[|r| - 1] == output
      && "-vn" in r
      && FlagWith(r, "-c:a", Codec(f))
      && FlagWith(r, "-b:a", Bitrate(f))
  {
    var r := AudioCommand(input, f, output);
    assert r[4] == "-vn";
    assert r[5] == "-c:a" && r[6] == Codec(f);
    assert r[7] == "-b:a" && r[8] == Bitrate(f);
  }

  /** The fixed flags of the video command: H.264 high profile, AAC audio, fast-start MP4. */
  const VideoFixedFlags: seq<string> :=
    ["-map", "0:v:0", "-map", "0:a:0?", "-c:v", "libx264",
     "-preset", "medium", "-profile:v", "high", "-level", "4.0", "-pix_fmt", "yuv420p",
     "-c:a", "aac", "-b:a", "192k", "-ar", "48000", "-ac", "2", "-movflags", "+faststart", "-f", "mp4"]

  /** The optional flags a setting can add. */
  predicate IsOptionFlag(s: string) {
    s == "-vf" || s == "-crf" || s == "-maxrate" || s == "-bufsize"
  }

  /** Setting values that cannot be mistaken for an optional flag. */
  predicate PlainValues(cfg: VideoSettings) {
    && !IsOptionFlag(cfg.crf)
    && (cfg.maxrate.Some? ==> !IsOptionFlag(cfg.maxrate.value))
    && (cfg.bufsize.Some? ==> !IsOptionFlag(cfg.bufsize.value))
  }

  /** The optional flags, in the order the source appends them. */
  function VideoOptions(cfg: VideoSettings): (r: seq<string>)
  {
    (if cfg.scale.Some? then ["-vf", "scale=" + cfg.scale.value] else [])
    + (if cfg.crf != "" then ["-crf", cfg.crf] else [])
    + (if cfg.maxrate.Some? && cfg.bufsize.Some? then ["-maxrate", cfg.maxrate.value, "-bufsize", cfg.bufsize.value] else [])
  }

  /** The video conversion command: fixed flags, then the optional ones, then the output path. */
  function VideoCommand(input: string, cfg: VideoSettings, output: string): (r: seq<string>)
  {
    ["ffmpeg", "-y", "-i", input] + VideoFixedFlags + VideoOptions(cfg) + [output]
  }

  /** A flag at position `i` followed by its value. */
  predicate FlagWith(args: seq<string>, flag: string, value: string) {
    exists i :: 0 <= i < |args| - 1 && args[i] == flag && args[i + 1] == value
  }

  /** Every row of the settings table has plain values. */
  lemma SettingsPlain(quality: string)
    ensures PlainValues(SettingsFor(quality))
  {
  }

  lemma FixedFlagsPlain()
    ensures forall s :: s in VideoFixedFlags ==> !IsOptionFlag(s)
  {
  }

  lemma ScaleValuePlain(x: string)
    ensures !IsOptionFlag("scale=" + x)
  {
    assert ("scale=" + x)[0] == 's';
  }

  /** The option part holds a flag exactly when the setting asks for it; `-maxrate` and `-bufsize` come together. */
  lemma VideoOptionsSpec(cfg: VideoSettings)
    requires cfg.crf != "" && PlainValues(cfg)
    ensures var o := VideoOptions(cfg);
      && ("-vf" in o <==> cfg.scale.Some?)
      && ("-maxrate" in o <==> cfg.maxrate.Some? && cfg.bufsize.Some?)
      && ("-bufsize" in o <==> "-maxrate" in o)
      && (cfg.scale.Some? ==> FlagWith(o, "-vf", "scale=" + cfg.scale.value))
      && FlagWith(o, "-crf", cfg.crf)
  {
    var a := if cfg.scale.Some? then ["-vf", "scale=" + cfg.scale.value] else [];
    var b := ["-crf", cfg.crf];
    var c := if cfg.maxrate.Some? && cfg.bufsize.Some? then ["-maxrate", cfg.maxrate.value, "-bufsize", cfg.bufsize.value] else [];
    var o := VideoOptions(cfg);
    assert o == a + b + c;
    if cfg.scale.Some? {
      ScaleValuePlain(cfg.scale.value);
      assert o[0] == "-vf" && o[1] == "scale=" + cfg.scale.value;
    }
    assert o[|a|] == "-crf" && o[|a| + 1] == cfg.crf;
  }

  /**
   * The whole video command: it starts `ffmpeg -y -i <input>`, ends with the
   * output path, always sets `-crf`, and between input and output holds
   * `-vf` exactly when the setting has a scale and `-maxrate`/`-bufsize`
   * only as a pair.
   */
  lemma VideoCommandSpec(input: string, quality: string, output: string)
    ensures var cfg := SettingsFor(quality); var r := VideoCommand(input, cfg, output); var mid := r[4..|r| - 1];
      && r[..4] == ["ffmpeg", "-y", "-i", input] && r[|r| - 1] == output
      && ("-vf" in mid <==> cfg.scale.Some?)
      && ("-maxrate" in mid <==> cfg.maxrate.Some? && cfg.bufsize.Some?)
      && ("-bufsize" in mid <==> "-maxrate" in mid)
      && FlagWith(mid, "-crf", cfg.crf)
  {
    var cfg := SettingsFor(quality);
    var o := VideoOptions(cfg);
    var r := VideoCommand(input, cfg, output);
    var mid := r[4..|r| - 1];
    assert mid == VideoFixedFlags + o;
    FixedFlagsPlain();
    SettingsPlain(quality);
    VideoOptionsSpec(cfg);
    var i :| 0 <= i < |o| - 1 && o[i] == "-crf" && o[i + 1] == cfg.crf;
    assert mid[|VideoFixedFlags| + i] == "-crf" && mid[|VideoFixedFlags| + i + 1] == cfg.crf;
  }

  /** With the `best` settings the command has neither a scale filter nor a rate cap. */
  lemma BestVideoCommand(input: string, output: string)
    ensures var r := VideoCommand(input, SettingsFor("best"), output); var mid := r[4..|r| - 1];
      "-vf" !in mid && "-maxrate" !in mid && "-bufsize" !in mid && FlagWith(mid, "-crf", "20")
  {
    VideoCommandSpec(input, "best", output);
  }
}
