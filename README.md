# ShortsLoad backend: the `/api/getinfo` format normaliser in Dafny

ShortsLoad's backend is a small Express server. Its one real endpoint,
`GET /api/getinfo?url=...`, runs `yt-dlp -j --no-warnings <url>`, parses the
JSON document the tool prints and answers with the video's title, its
thumbnail and a cleaned-up list of downloadable formats. This project models
that handler as pure Dafny functions and proves what it promises:

- `wrappers.dfy`: `Option`, for JavaScript properties that may be absent or null.
- `js_text.dfy` (module `JsText`): the JavaScript string operations the handler
  depends on. These are `String.prototype.includes`, whether
  `String.prototype.trim` leaves anything, the decimal rendering of a height
  inside a template literal, and `parseInt` on the two shapes a quality label
  can take.
- `formats.dfy` (module `Formats`): the `filter`, `map` and `sort` chain over
  `meta.formats || []`. The filter drops entries without a URL, HLS playlists
  (`.m3u8`), storyboards (`mhtml`) and entries with neither audio nor video.
  The map builds the `quality` label, the `hasAudio` and `hasVideo` flags and
  the copied fields. The sort puts entries with audio first, then higher
  numeric quality first. The sort is modelled as a stable insertion sort
  driven by the source's own comparator. It is proved sorted, a permutation
  and stable. A uniqueness lemma shows that any stable sort by that
  comparator gives the same result, so the model agrees with the engine's
  `Array.prototype.sort`, which is stable.
- `get_info.dfy` (module `GetInfo`): the responses. A missing `url` gives 400
  "Missing URL". A non-zero or absent exit code, or output that is only
  whitespace, gives 500 "Failed to fetch formats". A document that cannot be
  parsed gives 500 "Parse error". Otherwise the answer is 200 with the title
  and thumbnail unchanged and the normalised formats.

Running yt-dlp and `JSON.parse` are parameters of the model. `run` maps the
argument vector to how the process ended (its exit code and everything it
printed). `parse` maps the printed text to the fields read from the
document, or to None when the `try` block throws.

Facts about `server.js` that shape the model:
- An entry is kept when it has audio or video. One stream is enough
  (server.js:37).
- The fallback quality label is `"audio"`. A video-only entry without a
  height gets it too (server.js:40).
- The URL is not validated before yt-dlp runs. Any non-empty `url` is passed
  on (server.js:13-15).
- A fetch counts as failed when stdout is only whitespace, not only when it
  is empty (server.js:22).
- Take a watch URL whose document lists a 720p entry with audio and a
  video-only entry without a height. Both entries are kept. The height-less
  one is labelled `"audio"` and placed after the 720p entry
  (`GetInfo.WatchUrlScenario`).

## Model

| member | source | states |
|---|---|---|
| JsText.ContainsIffOccurs | server.js:35 | `url.includes(".m3u8")` holds exactly when the marker occurs as a contiguous window at some index of the URL |
| JsText.Contains | server.js:35 | `includes` is true for the empty pattern and for a pattern that starts the text, and false when the pattern is longer than the text; `JsText.ContainsIffOccurs` gives the full characterisation |
| JsText.TrimStart | server.js:22 | trimming the front removes only JavaScript whitespace and leaves a suffix of the text that does not start with whitespace |
| JsText.TrimEnd | server.js:22 | trimming the back removes only JavaScript whitespace and leaves a prefix of the text that does not end with whitespace |
| JsText.Trim | server.js:22 | `trim` returns the slice of the text between a whitespace prefix and a whitespace suffix, and the slice neither starts nor ends with whitespace; `!out.trim()` holds exactly when every character of stdout is a JavaScript whitespace or line-terminator character (the empty string included) |
| JsText.Decimal | server.js:40 | the rendering of a height in `${f.height}p` is a non-empty string of decimal digits with no leading zero |
| JsText.LeadingDigits | server.js:51 | the digits `parseInt` reads are the longest all-digit prefix of the label |
| JsText.ParseIntPrefix | server.js:51 | `parseInt` gives NaN (None) exactly when the label is empty or does not start with a digit; `JsText.ParseIntOfDecimalSuffix` shows it reads back the height of a numeric label |
| JsText.ParseIntOfDecimalSuffix | server.js:40-51 | parsing the rendered height followed by a non-digit suffix such as "p" gives back exactly the height |
| JsText.DecimalInjective | server.js:40 | different heights render to different numerals |
| Formats.Keep | server.js:33-37 | an entry is dropped when its `url` is absent or empty, when the URL contains ".m3u8", when `ext` is "mhtml", or when both codecs are "none"; every other entry is kept; `Formats.KeepIffSurvives` and `Formats.DroppedEntryHasNoEffect` give its meaning for the response |
| Formats.KeepIffSurvives | server.js:31-52 | a one-entry `formats` list yields a non-empty list exactly when the filter keeps the entry, and then it yields just that entry normalised |
| Formats.FilterFormats | server.js:32-38 | every kept entry passes the filter, and each entry that passes is kept as often as it occurs in the input, others never; the result is no longer than the input |
| Formats.FilterFormatsAppend | server.js:32-38 | filtering a concatenation is the concatenation of the filtered parts |
| Formats.DroppedEntryHasNoEffect | server.js:32-38 | an entry that fails the filter (no URL, `.m3u8`, `mhtml`, or both codecs "none") has no influence on the response, wherever it stands |
| Formats.QualityLabel | server.js:40 | the label is "audio" exactly when the height is absent or 0; otherwise it is `${height}p`: at least two characters, a final "p" preceded by a numeral with no leading zero whose value is the height, so `parseInt` reads the height back; `Formats.QualityLabelInjective` shows distinct heights get distinct labels |
| Formats.Normalize | server.js:39-47 | `quality` is the entry's quality label; `url`, `ext`, `acodec`, `vcodec` are copied unchanged; `hasAudio` holds iff `acodec` is not "none", `hasVideo` iff `vcodec` is not "none" |
| Formats.MapFormats | server.js:39-47 | the map keeps the length and normalises each entry in place |
| Formats.Rank | server.js:51 | `parseInt(quality)`, with NaN and 0 both read as 0, is 0 for a label that does not start with a digit, and so for "audio"; `Formats.QualityRank` shows it is the height when the height is truthy |
| Formats.QualityRank | server.js:40-51 | the number the comparator reads back from the label with `parseInt`, NaN counting as 0, is the height when it is truthy and 0 otherwise; the label is "audio" exactly when the height is absent or 0 |
| Formats.QualityLabelInjective | server.js:40 | two entries with truthy heights share a quality label only when their heights are equal |
| Formats.Compare | server.js:49-52 | the comparator is negative exactly when `a` has audio and `b` does not, or both agree on audio and `a` ranks higher; it is 0 exactly when both agree on audio and rank; `Formats.CompareConsistent` shows it is a consistent comparator |
| Formats.CompareConsistent | server.js:49-52 | the comparator depends only on (hasAudio, rank), is antisymmetric, is 0 exactly on equal keys, is transitive, and is negative exactly when `a` has audio and `b` does not, or both agree on audio and `a` ranks higher |
| Formats.Insert | server.js:48-52 | inserting one record adds exactly that record to the multiset of records |
| Formats.SortFormats | server.js:48-52 | the sort returns a permutation of its input |
| Formats.InsertSorted | server.js:48-52 | inserting into a sorted list keeps it sorted by the comparator |
| Formats.SortFormatsSorted | server.js:48-52 | the sorted result never has a later record the comparator would put first |
| Formats.WithKey | server.js:48-52 | the records selected for a sort key all have that key and come from the list |
| Formats.InsertWithKey | server.js:48-52 | insertion places the new record ahead of every record with the same key |
| Formats.SortFormatsStable | server.js:48-52 | records with the same audio flag and rank keep their input order (the sort is stable) |
| Formats.StableArrangementUnique | server.js:48-52 | two sorted lists that agree, key by key, on the ordered records with that key are equal |
| Formats.SortFormatsIsTheStableSort | server.js:48-52 | every sorted, stable arrangement of the input is the one the model returns, so the model matches any stable sort by this comparator |
| Formats.NormalizeFormats | server.js:31-52 | an absent `formats` gives []; the output has as many records as entries pass the filter, and no more than the input; it is a permutation of the mapped, filtered input; every record has a non-empty URL without ".m3u8", an `ext` other than "mhtml" and audio or video; records with audio precede those without; within one audio flag the numeric quality does not increase |
| Formats.OutputsComeFromKeptInputs | server.js:31-47 | every returned record is the normalisation of some input entry that passes the filter |
| Formats.AudioOutranksHeight | server.js:48-52 | a video-only entry listed before an entry with audio comes out after it, whatever their heights |
| Formats.ScenarioFormats | server.js:31-52 | a 720p entry with audio followed by a height-less video-only entry both survive, in that order, labelled "720p" and "audio" |
| GetInfo.OnClose | server.js:21-62 | a non-zero or absent exit code or whitespace-only stdout gives 500 "Failed to fetch formats"; an unparsable document gives 500 "Parse error"; status 200 comes exactly when the exit code is 0, stdout has a non-whitespace character and the document parses, and then title and thumbnail are passed through and the formats are the normalised list; a 200 response and a body with formats go together |
| GetInfo.GetInfo | server.js:11-64 | a missing or empty `url` gives 400 "Missing URL", and status 400 arises only then; otherwise the response is that of the close handler for yt-dlp run on the URL; the status is 200, 400 or 500 |
| GetInfo.MissingUrlIgnoresUpstream | server.js:13 | without a usable `url` the response does not depend on the process runner or the parser |
| GetInfo.FailedFetchIgnoresParser | server.js:22-25 | when the fetch failed the response is "Failed to fetch formats" whatever the parser would have returned |
| GetInfo.SuccessfulRequest | server.js:54-58 | a successful run with a parsable document answers 200 with the document's title and thumbnail and a sorted permutation of the kept, normalised formats |
| GetInfo.WatchUrlScenario | server.js:21-58 | the watch-URL example answers 200 with title "T", thumbnail "thumb.jpg" and both formats, the 720p entry with audio first |

## Left out

- Express setup, CORS, the `/` liveness route and `PORT` selection (server.js:1-9, 66-67): HTTP plumbing with no behaviour to state.
- Spawning yt-dlp and accumulating its stdout and stderr chunk by chunk (server.js:15-19): process I/O. `run` delivers the whole stdout at once; stderr is only logged, so it is not modelled.
- `console.error` logging (server.js:23, 60): a side effect only.
- `JSON.parse` and what else can throw inside the `try`: a document that is `null`, a truthy `formats` that is not an array, an entry that is `null`, or a truthy `url` that is neither a string nor an array all end in "Parse error" in the source. The model folds them into `parse` returning None and keeps only well-shaped documents. Falsy values are the model's None: a `formats` of `null`, `false`, `0` or `""` becomes `[]` through `|| []` (server.js:31), and a falsy `url` fails the filter (server.js:34). An array `url` is not modelled.
- Property values of other JavaScript types (a numeric `ext`, a string `height`): fields are strings or absent, and heights are non-negative integers. Non-integer heights and heights that JavaScript renders in exponent notation (1e21 and above) are not modelled.
- JsText.ParseIntPrefix: models `parseInt` only on labels that start with a digit or a letter. It does not model leading whitespace, signs, the "0x" prefix or loss of precision beyond 2^53; the labels built at server.js:40 never contain these.
- GetInfo.GetInfo: `req.query.url` is a string or absent. A repeated or nested query parameter, which the query parser turns into an array or object, is not modelled.
- Formats.SortFormats: V8's sort algorithm is replaced by insertion sort. `Formats.SortFormatsIsTheStableSort` shows the two give the same result, provided the engine's sort is stable, as ECMAScript 2019 and later require.
- GetInfo.GetInfo: `spawn` gets no `'error'` listener (server.js:15-21). When yt-dlp cannot be started (ENOENT or EACCES), the unhandled `'error'` event crashes the server and no response is sent. The model's `run` is total and always yields a close, so `GetInfo` always answers 200, 400 or 500.
- A timeout on the yt-dlp process: the source has none.
