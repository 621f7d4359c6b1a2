/** The values that cross the boundary of the two Flask services: what the
    extraction engine reports about a URL, the JSON bodies the handlers
    return, and the option records they hand to the engine. */
module Api {
  import opened Wrappers

  /** One entry of the engine's `formats` list: its `format_id`, its
      `vcodec` (absent, a codec name, or "none" for an audio-only stream)
      and its `height` in pixels (absent when unknown or audio-only). */
  datatype Fmt = Fmt(formatId: string, vcodec: Option<string>, height: Option<nat>)

  /** The metadata `extract_info(url, download=False)` returns: the
      `formats` list (absent key included) and the passthrough `title`/`id`. */
  datatype Info = Info(formats: Option<seq<Fmt>>, title: Option<string>, id: Option<string>)

  /** One key/value pair of the intermediate dict, rendered as one
      `{"label": key, "value": value}` item of the `resolutions` list. */
  datatype Entry = Entry(key: string, value: string)

  /** The 200 body of `/api/formats`. */
  datatype FormatsBody = FormatsBody(resolutions: seq<Entry>, audio: bool, title: Option<string>, id: Option<string>)

  /** A JSON `{"error": ...}` body with its HTTP status. */
  datatype ErrorReply = ErrorReply(status: nat, error: string)

  /** Options passed to the engine for a metadata-only extraction. */
  datatype ExtractOptions = ExtractOptions(quiet: bool, cookiefile: Option<string>)

  /** One item of the `postprocessors` option. */
  datatype Postprocessor = Postprocessor(key: string, preferredCodec: string, preferredQuality: string)

  /** The `ydl_opts` dict built by `download_video`; a key the source leaves
      out of the dict is `None`. */
  datatype DownloadOptions = DownloadOptions(
    format: string,
    outtmpl: string,
    postprocessors: Option<seq<Postprocessor>>,
    mergeOutputFormat: string,
    cookiefile: Option<string>)

  const UrlRequired := ErrorReply(400, "URL is required")
  const InvalidMode := ErrorReply(400, "Invalid mode")

  /** The generic 500 reply carrying the engine's exception message. */
  function EngineFailure(message: string): ErrorReply {
    ErrorReply(500, message)
  }

  /** The three modes `download_video` accepts. */
  predicate IsMode(mode: Option<string>) {
    mode == Some("audio") || mode == Some("best") || mode == Some("video")
  }

  /** How an f-string renders the optional `resolution` field: an absent
      value becomes the text "None". */
  function Interpolated(value: Option<string>): string {
    match value
    case Some(v) => v
    case None => "None"
  }

  /** The staging directory, `DOWNLOAD_DIR`. */
  const DownloadDir := "downloads"

  /** The engine placeholders around the random id in the output file name. */
  const TitlePlaceholder := "%(title)s_"
  const ExtPlaceholder := ".%(ext)s"

  /** `os.path.join(DOWNLOAD_DIR, f"%(title)s_{unique_id}.%(ext)s")`: a path in
      the staging directory whose name embeds the id between the title and
      extension placeholders. */
  function OutputTemplate(uniqueId: string): (t: string)
    ensures |t| == |DownloadDir| + 1 + |TitlePlaceholder| + |uniqueId| + |ExtPlaceholder|
    ensures t[..|DownloadDir| + 1] == DownloadDir + "/"
    ensures t[|DownloadDir| + 1..][..|TitlePlaceholder|] == TitlePlaceholder
    ensures t[|DownloadDir| + 1 + |TitlePlaceholder|..][..|uniqueId|] == uniqueId
    ensures t[|t| - |ExtPlaceholder|..] == ExtPlaceholder
  {
    DownloadDir + "/" + TitlePlaceholder + uniqueId + ExtPlaceholder
  }

  /** Requests with different ids never share an output template, so
      concurrent downloads stage distinct files. */
  lemma OutputTemplateInjective(a: string, b: string)
    ensures OutputTemplate(a) == OutputTemplate(b) ==> a == b
  {
    var n := |DownloadDir| + 1 + |TitlePlaceholder|;
    if OutputTemplate(a) == OutputTemplate(b) {
      assert a == OutputTemplate(a)[n..][..|a|];
    }
  }

  /** The `postprocessors` entry of the audio mode: extract the audio track
      to mp3 at quality 192. */
  const ExtractMp3 := Postprocessor("FFmpegExtractAudio", "mp3", "192")
}
