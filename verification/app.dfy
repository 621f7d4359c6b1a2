/** The two handlers of `app.py`. This variant passes the cookie file to the
    engine for both the metadata extraction and the download. */
module App {
  import opened Wrappers
  import opened Api
  import opened Resolutions

  const CookieFile := "cookies.txt"

  /** The options of the metadata-only extraction in `get_formats`. */
  const MetadataOptions := ExtractOptions(quiet := true, cookiefile := Some(CookieFile))

  /** `POST /api/formats`. `extract` is the engine's `extract_info(url,
      download=False)` under the given options: the metadata, or the message
      of the exception it raised. A missing or empty `url` is answered with a
      400 without consulting the engine; an engine failure with a 500 carrying
      its message; otherwise with the summary of the engine's format list. */
  method GetFormats(url: Option<string>, extract: (string, ExtractOptions) -> Result<Info, string>)
    returns (reply: Result<FormatsBody, ErrorReply>)
    ensures url == None || url == Some("") ==> reply == Failure(UrlRequired)
    ensures url.Some? && url.value != "" ==>
      reply == match extract(url.value, MetadataOptions)
               case Failure(message) => Failure(EngineFailure(message))
               case Success(info) => Success(Summary(info))
  {
    if url.None? || url.value == "" {
      return Failure(UrlRequired);
    }
    var extracted := extract(url.value, MetadataOptions);
    if extracted.Failure? {
      return Failure(EngineFailure(extracted.error));
    }
    var info := extracted.value;
    var formats := info.formats.GetOr([]);
    var resolutions := CollectResolutions(formats);
    FirstWinsKeyed(formats);
    var audioAvailable := AnyAudioOnly(formats);
    reply := Success(FormatsBody(SortByKey(resolutions), audioAvailable, info.title, info.id));
  }

  /** The `ydl_opts` `download_video` builds for a mode, or the 400 "Invalid
      mode" for a mode outside the three (a missing one included). */
  function DownloadOptionsFor(mode: Option<string>, resolution: Option<string>, uniqueId: string)
    : (r: Result<DownloadOptions, ErrorReply>)
    requires |uniqueId| == 8
    ensures r.Failure? <==> !IsMode(mode)
    ensures r.Failure? ==> r.error == InvalidMode
    ensures r.Success? ==> r.value.outtmpl == OutputTemplate(uniqueId) && r.value.cookiefile == Some(CookieFile)
    ensures r.Success? ==> (r.value.postprocessors.Some? <==> mode == Some("audio"))
    ensures r.Success? ==> (r.value.mergeOutputFormat == "mp3" <==> mode == Some("audio"))
    ensures mode == Some("audio") ==>
      r.value.format == "bestaudio/best" && r.value.postprocessors == Some([ExtractMp3])
    ensures mode == Some("best") ==>
      r.value.format == "bestvideo+bestaudio/best" && r.value.mergeOutputFormat == "mp4"
    ensures mode == Some("video") ==>
      r.value.format == Interpolated(resolution) + "+bestaudio/best" && r.value.mergeOutputFormat == "mp4"
  {
    var outtmpl := OutputTemplate(uniqueId);
    if mode == Some("audio") then
      Success(DownloadOptions("bestaudio/best", outtmpl, Some([ExtractMp3]), "mp3", Some(CookieFile)))
    else if mode == Some("best") then
      Success(DownloadOptions("bestvideo+bestaudio/best", outtmpl, None, "mp4", Some(CookieFile)))
    else if mode == Some("video") then
      Success(DownloadOptions(Interpolated(resolution) + "+bestaudio/best", outtmpl, None, "mp4", Some(CookieFile)))
    else
      Failure(InvalidMode)
  }

  /** `POST /api/download`. `engine` is `extract_info(url, download=True)`
      followed by `prepare_filename` under the given options: the path of the
      staged file, or the message of the exception raised. An invalid mode is
      answered with a 400 whatever the engine would do; otherwise the reply is
      the staged file, or a 500 carrying the engine's message. The `url` is
      not checked here: a missing one reaches the engine. */
  function Download(url: Option<string>, mode: Option<string>, resolution: Option<string>, uniqueId: string,
                    engine: (Option<string>, DownloadOptions) -> Result<string, string>)
    : (r: Result<string, ErrorReply>)
    requires |uniqueId| == 8
    ensures !IsMode(mode) ==> r == Failure(InvalidMode)
    ensures IsMode(mode) ==> (r.Success? <==> engine(url, DownloadOptionsFor(mode, resolution, uniqueId).value).Success?)
    ensures r.Success? ==> r.value == engine(url, DownloadOptionsFor(mode, resolution, uniqueId).value).value
    ensures IsMode(mode) && r.Failure? ==>
      r.error == EngineFailure(engine(url, DownloadOptionsFor(mode, resolution, uniqueId).value).error)
  {
    match DownloadOptionsFor(mode, resolution, uniqueId)
    case Failure(e) => Failure(e)
    case Success(options) =>
      match engine(url, options)
      case Success(path) => Success(path)
      case Failure(message) => Failure(EngineFailure(message))
  }
}
