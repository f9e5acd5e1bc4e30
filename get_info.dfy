/**
  The outcome of one `GET /api/getinfo?url=...` request: the checks on the
  query parameter and on how the yt-dlp process ended, the parse of its
  output, and the response sent back.
 */
module GetInfo {

  import opened Wrappers
  import opened JsText
  import opened Formats

  /** The parts of yt-dlp's JSON document the handler reads. */
  datatype Meta = Meta(
    title: Option<string>,
    thumbnail: Option<string>,
    formats: Option<seq<RawFormat>>)

  /**
    How the yt-dlp process ended: its exit code (None when a signal ended it)
    and everything it wrote to standard output.
   */
  datatype ProcessExit = ProcessExit(code: Option<int>, stdout: string)

  datatype Body =
    | ErrorBody(error: string)
    | InfoBody(title: Option<string>, thumbnail: Option<string>, formats: seq<NormalizedFormat>)

  datatype Response = Response(status: nat, body: Body)

  const MissingUrl: string := "Missing URL"
  const FetchFailed: string := "Failed to fetch formats"
  const ParseFailed: string := "Parse error"

  /** The argument vector given to yt-dlp: one JSON document, no warnings. */
  function YtDlpArgs(url: string): seq<string>
  {
    ["-j", "--no-warnings", url]
  }

  /**
    The `close` handler. `parse` stands for `JSON.parse` together with reading
    the fields of `Meta`; None is any exception thrown inside the `try`.
   */
  function OnClose(exit: ProcessExit, parse: string -> Option<Meta>): (r: Response)
    ensures exit.code != Some(0) || AllWhitespace(exit.stdout) ==>
      r == Response(500, ErrorBody(FetchFailed))
    ensures exit.code == Some(0) && !AllWhitespace(exit.stdout) && parse(exit.stdout).None? ==>
      r == Response(500, ErrorBody(ParseFailed))
    ensures r.status == 200 <==>
      exit.code == Some(0) && !AllWhitespace(exit.stdout) && parse(exit.stdout).Some?
    ensures r.status == 200 ==>
      var meta := parse(exit.stdout).value;
      r.body == InfoBody(meta.title, meta.thumbnail, NormalizeFormats(meta.formats))
    ensures r.status == 200 <==> r.body.InfoBody?
  {
    if exit.code != Some(0) || Trim(exit.stdout) == [] then
      Response(500, ErrorBody(FetchFailed))
    else
      match parse(exit.stdout)
      case None => Response(500, ErrorBody(ParseFailed))
      case Some(meta) =>
        Response(200, InfoBody(meta.title, meta.thumbnail, NormalizeFormats(meta.formats)))
  }

  /**
    The route handler. `url` is the `url` query parameter; `run` stands for
    spawning yt-dlp with the given arguments and waiting for it to close.
   */
  function GetInfo(url: Option<string>, run: seq<string> -> ProcessExit, parse: string -> Option<Meta>): (r: Response)
    ensures url.None? || url.value == [] ==> r == Response(400, ErrorBody(MissingUrl))
    ensures r.status == 400 <==> url.None? || url.value == []
    ensures url.Some? && url.value != [] ==> r == OnClose(run(YtDlpArgs(url.value)), parse)
    ensures r.status in {200, 400, 500}
    ensures r.status == 200 <==> r.body.InfoBody?
  {
    if url.None? || url.value == [] then Response(400, ErrorBody(MissingUrl))
    else OnClose(run(YtDlpArgs(url.value)), parse)
  }

  /**
    A request without a usable `url` is answered without consulting the
    process runner or the parser at all.
   */
  lemma MissingUrlIgnoresUpstream(
    run1: seq<string> -> ProcessExit, parse1: string -> Option<Meta>,
    run2: seq<string> -> ProcessExit, parse2: string -> Option<Meta>)
    ensures GetInfo(None, run1, parse1) == GetInfo(None, run2, parse2)
    ensures GetInfo(Some(""), run1, parse1) == GetInfo(None, run2, parse2)
  {
  }

  /**
    A failed fetch answers the same whatever the output would have parsed to:
    nothing after the exit check depends on the parser.
   */
  lemma FailedFetchIgnoresParser(exit: ProcessExit, parse1: string -> Option<Meta>, parse2: string -> Option<Meta>)
    requires exit.code != Some(0) || Trim(exit.stdout) == []
    ensures OnClose(exit, parse1) == OnClose(exit, parse2)
    ensures OnClose(exit, parse1).body == ErrorBody(FetchFailed)
  {
  }

  /**
    A request whose process succeeds and whose document parses gets every kept
    format, and nothing else, in the sorted order, with title and thumbnail
    as the document had them.
   */
  lemma SuccessfulRequest(url: string, exit: ProcessExit, meta: Meta)
    requires url != [] && exit.code == Some(0) && !AllWhitespace(exit.stdout)
    ensures var r := GetInfo(Some(url), _ => exit, _ => Some(meta));
      && r.status == 200
      && r.body.title == meta.title
      && r.body.thumbnail == meta.thumbnail
      && multiset(r.body.formats) == multiset(MapFormats(FilterFormats(meta.formats.GetOr([]))))
      && Sorted(r.body.formats)
  {
    var r := GetInfo(Some(url), _ => exit, _ => Some(meta));
    SortFormatsSorted(MapFormats(FilterFormats(meta.formats.GetOr([]))));
  }

  /**
    The document yt-dlp prints in an end-to-end example; `ScenarioMeta` is what
    reading it yields. The model does not derive one from the other: `parse`
    is a parameter, so the example only needs this text to be non-blank.
   */
  function ScenarioStdout(): string
  {
    ['{'] + "\"title\":\"T\",\"thumbnail\":\"thumb.jpg\",\"formats\":["
    + "{\"url\":\"u1\",\"ext\":\"mp4\",\"height\":720,\"acodec\":\"aac\",\"vcodec\":\"avc1\"},"
    + "{\"url\":\"u2\",\"ext\":\"mp4\",\"height\":null,\"acodec\":\"none\",\"vcodec\":\"avc1\"}"
    + "]}\n"
  }

  function ScenarioMeta(): Meta
  {
    Meta(Some("T"), Some("thumb.jpg"), Some([ScenarioWithAudio(), ScenarioVideoOnly()]))
  }

  lemma ScenarioStdoutNotBlank()
    ensures !AllWhitespace(ScenarioStdout())
  {
    assert ScenarioStdout()[0] == '{';
  }

  /**
    An end-to-end example: a watch URL whose document lists a 720p entry with
    audio and a video-only entry without a height. Both are kept (one stream
    suffices), the one with audio first, labelled "720p" and "audio".
   */
  lemma WatchUrlScenario(url: string)
    requires url == "https://www.youtube.com/watch?v=abc123"
    ensures
      GetInfo(Some(url), _ => ProcessExit(Some(0), ScenarioStdout()), _ => Some(ScenarioMeta()))
      == Response(200, InfoBody(Some("T"), Some("thumb.jpg"),
                                [Normalize(ScenarioWithAudio()), Normalize(ScenarioVideoOnly())]))
  {
    ScenarioFormats();
    ScenarioStdoutNotBlank();
  }
}
