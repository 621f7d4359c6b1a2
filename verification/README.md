# ytconverter-backend: the format reducer and the download options

The repository holds two near-identical Flask services, `app.py` and
`converter.py`. Both wrap the yt-dlp extraction engine behind two endpoints:

- `POST /api/formats` asks the engine for a URL's metadata. It then reduces the
  engine's list of format descriptors to one `format_id` per `"<height>p"`
  label. Only video streams with a known height count (`vcodec != "none"`,
  where an absent `vcodec` counts as video). When several descriptors share a
  height, the first one in the engine's order wins. The labels are sorted by
  the number parsed back out of them. The reply also carries an `audio` flag,
  which is set iff some descriptor is audio-only.
- `POST /api/download` maps the `mode` (`audio`, `best` or `video`) to the
  engine's option record. That record holds the format selector, the output
  template `downloads/%(title)s_<id>.%(ext)s`, the merge container and the mp3
  extraction post-processor, plus the cookie file in `app.py` only. Any other
  mode is a 400 `Invalid mode`.

The Dafny modules:

- `Wrappers` (wrappers.dfy): `Option` and `Result`.
- `Decimal` (decimal.dfy): Python's `str(n)`, `int(s)` and `s.replace(c, '')`,
  as far as the labels need them. It proves `int(str(n)) == n`.
- `Api` (api.dfy): the engine's descriptors and metadata, the JSON bodies, the
  option records, the mode set and the output template.
- `Resolutions` (resolutions.dfy): the reduction loop shared by both files.
  `CollectResolutions` is the imperative loop over the intermediate dict. The
  dict is an insertion-ordered list of key/value pairs. `FirstWins` is an
  independent recursive definition: the head claims its label and later
  duplicates are filtered out. The loop is proved equal to it. The lemmas
  characterise `FirstWins` (its labels, distinctness, first-wins lookups). The
  module also holds the numeric sort, proved strictly ascending and a
  permutation, and the `any(...)` audio flag.
- `App` (app.dfy) and `Converter` (converter.dfy): the two handlers of each
  file. The engine calls are function-typed parameters. The random id is a
  parameter of length 8.

The reduction in `converter.py:25-36` is the same code as `app.py:25-35`, so
both `GetFormats` methods call the same `Resolutions` members. The rows below
cite the `app.py` lines for them. The two files differ only in the engine
options. `app.py` passes `cookiefile: cookies.txt` to both engine calls and
`converter.py` to neither. `Converter.SameOptionsWithoutCookies` states that
difference for the download options.

Two behaviours of the code a reader might not expect:

- `download_video` never checks `url`. A missing URL reaches the engine and
  comes back as its 500.
- `resolution` is not validated in `video` mode. An absent value is rendered
  as the text `None`, which gives the selector `None+bestaudio/best`.

## Model

| member | source | states |
|---|---|---|
| `Decimal.NatToString` | app.py:28 | `str(height)` is a non-empty string of decimal digits; it starts with `0` iff the height is 0 (no leading zeros) |
| `Decimal.ParseNat` | app.py:35 | `int(s)` succeeds exactly on non-empty strings of decimal digits |
| `Decimal.RemoveChar` | app.py:35 | `label.replace('p', '')` leaves no `p` and never lengthens the string |
| `Decimal.RemoveCharKeeps` | app.py:35 | `label.replace('p', '')` keeps every other character: each character other than `p` occurs as often as in the label |
| `Decimal.RemoveAbsentChar` | app.py:35 | `replace` leaves a string without `p` (the digits of a height) unchanged |
| `Decimal.ParseNatToString` | app.py:28-35 | parsing the printed height gives the height back: `int(str(n)) == n` |
| `Resolutions.LabelRoundTrip` | app.py:28-35 | the sort key `int(label.replace('p', ''))` of the label `f"{h}p"` is exactly `h` |
| `Resolutions.LabelInjective` | app.py:28-29 | two heights share a label iff they are equal, so the dict's membership test on labels is a test on heights |
| `Resolutions.FirstWinsSnoc` | app.py:26-30 | appending one descriptor changes the first-wins dict exactly as one loop iteration does: a qualifying descriptor with a new label is appended, and anything else leaves the dict unchanged |
| `Resolutions.CollectResolutions` | app.py:25-30 | the loop that fills `resolutions` under the `label not in resolutions` test builds exactly the first-wins dict of the whole list |
| `Resolutions.FirstWinsKeys` | app.py:26-28 | the dict's labels are exactly `f"{h}p"` over the heights of the qualifying descriptors; audio-only and height-less descriptors never contribute |
| `Resolutions.FirstWinsDistinct` | app.py:25-30 | the labels in the dict are pairwise distinct, and the dict is no longer than the format list |
| `Resolutions.FirstWinsLookup` | app.py:28-30 | first wins: the label of a height maps to the `format_id` of the first qualifying descriptor of that height, and later duplicates never overwrite it |
| `Resolutions.FirstWinsAbsent` | app.py:27 | a height that no qualifying descriptor has gets no label, even when an audio-only descriptor carries it |
| `Resolutions.FirstWinsEntries` | app.py:26-30 | every pair in the dict is the label and `format_id` of the first qualifying descriptor of some height |
| `Resolutions.AnyAudioOnlyIff` | app.py:32 | the `audio` flag is true iff some descriptor has `vcodec == "none"`; a missing `vcodec` does not set it |
| `Resolutions.Insert` | app.py:35 | inserting one element into a list yields a permutation of the list plus that element |
| `Resolutions.SortBy` | app.py:35 | `sorted(items, key=key)` returns a permutation of its input, for any key function |
| `Resolutions.SortByKey` | app.py:35 | sorting the dict's items by `int(label.replace('p', ''))` returns a permutation of them; every label must have a sort key |
| `Resolutions.InsertAscending` | app.py:35 | inserting an element whose key is new keeps a strictly ascending list strictly ascending |
| `Resolutions.SortAscending` | app.py:35 | sorting elements whose keys are pairwise distinct gives a list strictly ascending by key |
| `Resolutions.FirstWinsKeyed` | app.py:28-35 | every label in the dict has a sort key, that key renders back to the label, and distinct labels have distinct keys |
| `Resolutions.Resolutions` | app.py:35 | the `resolutions` list is strictly ascending by numeric height, a permutation of the dict, holds exactly the labels of the qualifying heights, is no longer than the input, and each label's key renders back to it |
| `Resolutions.Summary` | app.py:32-39 | the 200 body holds the sorted resolutions, `audio` true iff some descriptor is audio-only, and the engine's `title` and `id` passed through; a missing `formats` key counts as an empty list |
| `Resolutions.ExampleDedup` | app.py:25-30 | for heights 144, 144, 1080, 720 and one audio-only stream, the dict keeps the first 144 descriptor and has no entry for the audio stream |
| `Api.OutputTemplate` | app.py:57-59 | the output template is `downloads/%(title)s_<id>.%(ext)s`: it starts with `downloads/`, then the `%(title)s_` placeholder, then the id, and ends with the `.%(ext)s` placeholder |
| `Api.OutputTemplateInjective` | app.py:57-59 | different ids give different output templates, so concurrent requests stage different files |
| `App.GetFormats` | app.py:14-42 | a missing or empty `url` is a 400 `URL is required` whatever the engine would say; an engine failure is a 500 with its message; otherwise the reply is the summary of the engine's formats, extracted with `quiet` and the cookie file |
| `App.DownloadOptionsFor` | app.py:57-92 | a mode other than audio/best/video (missing included) is exactly the 400 `Invalid mode`. Every valid mode uses the id's output template and the cookie file. Only `audio` has the mp3/192 extraction post-processor and the `mp3` merge. The selector is `bestaudio/best` for audio, `bestvideo+bestaudio/best` with `mp4` for best, and the rendered `resolution` + `+bestaudio/best` with `mp4` for video |
| `App.Download` | app.py:45-103 | an invalid mode is a 400 whatever the engine would do; for a valid mode the reply is the engine's staged file when it succeeds, else a 500 carrying its message |
| `Converter.GetFormats` | converter.py:14-43 | as `App.GetFormats` (same 400, same 500, same reduction), with the engine run with `quiet` and no cookie file |
| `Converter.DownloadOptionsFor` | converter.py:54-86 | same mode mapping as `App.DownloadOptionsFor`, with no `cookiefile` key; an unrecognised or missing mode is the 400 `Invalid mode` |
| `Converter.Download` | converter.py:46-95 | an invalid mode is a 400 before any engine use; otherwise the engine's staged file or a 500 carrying its message |
| `Converter.SameOptionsWithoutCookies` | converter.py:58-86 | the two services reject the same modes, and for every valid request they build the same options except for the cookie file |

## Left out

- Flask routing, `request.json` parsing, CORS, `jsonify`, `send_file` streaming and the `__main__` server start are framework I/O. Only the data that goes into the JSON and into the engine is modelled. A failure of `send_file` itself, such as a missing file (the audio mode's FFmpeg step writes an `.mp3` under a different name than `prepare_filename` predicts), lands in the same `except` at app.py:101-103 and becomes a 500; `Download` does not model that path.
- `YoutubeDL.extract_info`, `prepare_filename` and FFmpeg post-processing are foreign network and transcoding calls. They are function parameters of the handlers. The download engine returns the file name `prepare_filename` returns, or an error message.
- `uuid.uuid4().hex[:8]` is randomness. The id is a parameter of length 8.
- `os.makedirs` is a filesystem effect. `os.path.join` is modelled as concatenation with `/`.
- The `print` logging in `app.py` is left out.
- The catch-all `except Exception` is one error variant: a 500 carrying the engine's message. Only engine failures reach it in the model. Other Python exceptions are not modelled: a descriptor without `format_id` (KeyError), a `formats` value of `None`, a non-integer `height`, a request without a JSON body, and JSON values of other types than strings for `url`, `mode` or `resolution`. The model types these fields as optional strings, and heights as naturals.
- Decimal.ParseNat: only models `int()` on strings of ASCII decimal digits. Python also accepts surrounding whitespace, a sign, underscores and other Unicode digits. Labels built from heights never contain those.
- Resolutions.KeyOf reads 0 for a label without a sort key, where Python raises `ValueError`. `SortByKey` requires every label to have a key, and `FirstWinsKeyed` proves that every label the loop builds has one.
- The extraction options for the metadata call are constants. Neither file passes throttling or client-impersonation options.
