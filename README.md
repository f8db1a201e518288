# TikTok downloader core, modelled in Dafny

`src/video_downloader.py` is a command-line tool. It takes a TikTok video URL, asks a
third-party lookup service for the page of download links, picks the MP4 link, names a
file after it, and fetches the video. An interactive loop repeats this for each URL the
operator types. This project models the deterministic core of that tool and proves its
contracts:

- `Text`: the string operations the code leans on. These are `strip()`, `lower()`,
  `startswith`, substring `in`, and `replace('\\"', '')` with left-to-right,
  non-overlapping semantics.
- `UrlValidator`: `validate_tiktok_url`.
- `LinkExtractor`: `parse_download_link`, over the anchors of an already-parsed page. It
  is a loop with an early return, proved against the selection function `FirstLink`.
- `FilenameGenerator`: `generate_filename` as a function of the link and the clock.
- `Pipeline`: `get_video_download_url`, `extract_download_url`,
  `process_video_download`, and the link cleaning in `download_video_file`.
  - The network is an `Environment` input: the lookup's answer as
    `Option<seq<Anchor>>` (`None` for any request failure), whether the fetch and write
    succeed, and the clock.
  - The result `Attempt` records which steps ran, so the short-circuiting can be seen.
- `InteractiveSession`: `run_interactive_mode`.
  - The operator's input is a sequence of events: typed lines, an interrupt, or a fault
    together with the answer to the "continue?" prompt.
  - The method runs the loop over the modelled pipeline. Its specification, `Run`,
    sees each pipeline run only through its outcome.

Three behaviours of the code that a reader might not expect, each stated by a lemma:

- The domain test accepts `tiktok.com` anywhere in the lowercased URL, not only in the
  host (`UrlValidator.AcceptsDomainOutsideHost`).
- The filter in `generate_filename` drops the dot of `v1.mp4`. A link ending in `/v1.mp4`
  therefore gives the file name `v1mp4.mp4`, not `v1.mp4`
  (`FilenameGenerator.FilenameOfCdnLink`).
- `extract_download_url` treats an empty cleaned link (an `href` of just `\"`) as "no
  link". The selection has already stopped at that anchor, so later anchors are never
  considered (`Pipeline.EmptyLinkEndsTheScan`).

## Model

| member | source | states |
|---|---|---|
| UrlValidator.ValidateTiktokUrl | src/video_downloader.py:188-219 | true exactly when the URL is non-empty, starts with `https://` or `http://` (case-sensitive), and its lowercased text contains `tiktok.com` |
| UrlValidator.AnyDomainMeansTiktok | src/video_downloader.py:194-212 | containing any of the four domains of `ValidDomains` (lines 194-199) is the same as containing `tiktok.com` |
| UrlValidator.AcceptsMixedCaseHost | src/video_downloader.py:207-212 | an upper-case host passes, because the domain test lowers the URL first |
| UrlValidator.AcceptsPlatformUrl | src/video_downloader.py:188-219 | every `https://www.tiktok.com…` URL passes, whatever its path |
| UrlValidator.AcceptsDomainOutsideHost | src/video_downloader.py:212 | `https://example.org/?next=tiktok.com` passes: its host is foreign but its query mentions `tiktok.com` |
| UrlValidator.RejectsUppercaseScheme | src/video_downloader.py:207-209 | `HTTPS://…` is rejected, because the prefix test does not lower the URL |
| UrlValidator.RejectsForeignHost | src/video_downloader.py:212-216 | `https://example.org/watch`, which does not mention `tiktok.com`, is rejected |
| Text.IsSpace | src/video_downloader.py:165 | the whitespace set of `strip()` below code point 128: space, tab to carriage return, and the separators 0x1C-0x1F |
| Text.Strip | src/video_downloader.py:165 | `strip()`, used at lines 165, 368 and 401; `StripSpec` states what it yields |
| Text.StripSpec | src/video_downloader.py:165 | `strip()` yields a slice with whitespace-only margins cut away, and neither end of the slice is whitespace |
| Text.TrimLeftSpec | src/video_downloader.py:165 | the left trim removes exactly a whitespace prefix and stops at the first other character |
| Text.TrimRightSpec | src/video_downloader.py:165 | the right trim removes exactly a whitespace suffix and stops at the last other character |
| Text.Lower | src/video_downloader.py:212 | `lower()` on ASCII letters, character by character (also used at line 371) |
| Text.LowerSpec | src/video_downloader.py:212 | lowering keeps the length, turns each ASCII capital into its own small letter, keeps every other character, leaves no ASCII capital, and is idempotent |
| Text.StartsWith | src/video_downloader.py:207 | `startswith`: the string begins with the prefix |
| Text.Contains | src/video_downloader.py:170 | substring `in`, used at lines 170 and 212; `ContainsAt` states what it means |
| Text.ContainsAt | src/video_downloader.py:170 | substring `in` holds exactly when the pattern occurs at some position |
| Text.RemoveAll | src/video_downloader.py:177 | `replace(pat, '')` never lengthens the string |
| Text.RemoveAllWholeCopies | src/video_downloader.py:177 | the length lost is the number of matches taken out (`Removals`) times the pattern's length; the content of what is removed is not stated |
| Text.RemoveAllAbsent | src/video_downloader.py:177 | a string without the pattern is returned unchanged |
| Text.RemoveTrailingEscapedQuote | src/video_downloader.py:177 | for a link with no `"`, a trailing `\"` is removed and nothing else changes |
| LinkExtractor.Qualifies | src/video_downloader.py:165-170 | the recognition rule: `Download MP4 HD` in the stripped text, or `dl-success` among the classes |
| LinkExtractor.Usable | src/video_downloader.py:170-174 | a qualifying anchor whose `href` is present and non-empty |
| LinkExtractor.ParseDownloadLink | src/video_downloader.py:148-182 | the loop returns `FirstLink`: `None` exactly when no anchor is usable, otherwise the cleaned `href` of the first usable anchor |
| LinkExtractor.FirstLink | src/video_downloader.py:163-182 | the selection the loop computes: the cleaned `href` of the first usable anchor, `None` when there is none; pinned by `FirstLinkNone`, `FirstLinkAt` and `FirstLinkFound` |
| LinkExtractor.FirstLinkNone | src/video_downloader.py:163-182 | the selection finds nothing exactly when no anchor qualifies with a non-empty `href` |
| LinkExtractor.FirstLinkAt | src/video_downloader.py:163-178 | the first usable anchor decides the result; earlier qualifying anchors with a missing or empty `href` are skipped |
| LinkExtractor.FirstLinkAtAny | src/video_downloader.py:163-178 | the statement of `FirstLinkAt` for every position |
| LinkExtractor.FirstLinkFound | src/video_downloader.py:163-178 | any link found comes from the first usable anchor |
| LinkExtractor.Cleaned | src/video_downloader.py:177 | the cleaned link is never longer than the `href` |
| LinkExtractor.CleanedCanBeEmpty | src/video_downloader.py:174-178 | an `href` of `\"` is usable but cleans to the empty string |
| LinkExtractor.CleanedMayKeepEscapedQuote | src/video_downloader.py:177 | removal can create a new `\"`, so the result is not promised free of it |
| FilenameGenerator.LastSegment | src/video_downloader.py:294-295 | `split('/')[-1]` is the suffix after the last `/` and contains no `/` |
| FilenameGenerator.LastSegmentUnique | src/video_downloader.py:294-295 | a `/`-free suffix that starts the string or follows a `/` is that segment |
| FilenameGenerator.BeforeQuery | src/video_downloader.py:295 | `split('?')[0]` is the prefix before the first `?` and contains no `?` |
| FilenameGenerator.BeforeQueryUnique | src/video_downloader.py:295 | a `?`-free prefix that ends the string or precedes a `?` is that part |
| FilenameGenerator.IsSafeChar | src/video_downloader.py:298 | membership in `safe_chars`: ASCII letters, digits, `-` and `_` |
| FilenameGenerator.KeepSafe | src/video_downloader.py:298-299 | the filter keeps only `[A-Za-z0-9_-]` and never lengthens the string |
| FilenameGenerator.KeepSafeCounts | src/video_downloader.py:298-299 | every safe character is kept as often as it occurs, and no unsafe character survives |
| FilenameGenerator.KeepSafeOfChar | src/video_downloader.py:299 | a single character is kept exactly when it is safe |
| FilenameGenerator.KeepSafeOfSafe | src/video_downloader.py:298-299 | safe text passes the filter unchanged |
| FilenameGenerator.KeepSafeAppend | src/video_downloader.py:299 | the filter distributes over concatenation |
| FilenameGenerator.KeepSafeSlice | src/video_downloader.py:299 | any slice keeps no more safe characters than the whole string |
| FilenameGenerator.Decimal | src/video_downloader.py:304-305 | `str(timestamp)` is non-empty decimal digits without a leading zero |
| FilenameGenerator.DecimalRoundTrip | src/video_downloader.py:304-305 | the digits read back to the timestamp |
| FilenameGenerator.VideoId | src/video_downloader.py:294-299 | the id is made of safe characters only |
| FilenameGenerator.TimestampStem | src/video_downloader.py:302-305 | `video_<ts>` is safe and at least five characters long |
| FilenameGenerator.GenerateFilename | src/video_downloader.py:287-311 | every name is a stem of at least five safe characters followed by `.mp4` |
| FilenameGenerator.FallbackFilename | src/video_downloader.py:313-318 | the exception branch's `tiktok_video_<ts>.mp4` has the same shape |
| FilenameGenerator.FilenameOfLongId | src/video_downloader.py:302-308 | an id of five or more characters gives `<id>.mp4` |
| FilenameGenerator.FilenameOfShortId | src/video_downloader.py:302-308 | a shorter id gives `video_<ts>.mp4` |
| FilenameGenerator.SafeHasNoSeparator | src/video_downloader.py:298 | safe characters include neither `/` nor `?` |
| FilenameGenerator.VideoIdOfSegment | src/video_downloader.py:294-299 | text before the last `/` has no influence on the id |
| FilenameGenerator.FilenameOfSegment | src/video_downloader.py:294-308 | a last segment whose part before `?` is a long safe id names the file after that id |
| FilenameGenerator.QueriedSegment | src/video_downloader.py:295 | joining a `/`-free id and query with `?` introduces no `/` |
| FilenameGenerator.FilenameFromId | src/video_downloader.py:294-308 | `…/<id>` and `…/<id>?<query>` with a safe id of five or more characters both give `<id>.mp4` |
| FilenameGenerator.FilenameFromTimestamp | src/video_downloader.py:294-308 | fewer than five safe characters after the last `/` give `video_<ts>.mp4`, whatever the query |
| FilenameGenerator.KeepSafeDropsDot | src/video_downloader.py:298-299 | the filter turns `v1.mp4` into `v1mp4` |
| FilenameGenerator.VideoIdOfCdnLink | src/video_downloader.py:294-299 | the id of `https://cdn.example/v1.mp4` is `v1mp4` |
| FilenameGenerator.FilenameOfCdnLink | src/video_downloader.py:294-308 | that link names the file `v1mp4.mp4` |
| Pipeline.ExtractDownloadUrl | src/video_downloader.py:102-146 | a link comes out exactly when the lookup answered and its first usable anchor cleans to a non-empty link, and that link is the selection's result |
| Pipeline.GetVideoDownloadUrl | src/video_downloader.py:221-240 | a link comes out exactly when the URL is valid and extraction yields one, and it is non-empty and from the first usable anchor |
| Pipeline.FetchTarget | src/video_downloader.py:251-255 | the GET goes to the link cleaned once more, which is never longer |
| Pipeline.ProcessVideoDownload | src/video_downloader.py:320-347 | the lookup runs exactly for valid URLs; a name and a fetch happen exactly when a link was found; the name is safe and is `GenerateFilename` of the link; the result is true exactly when a fetch was issued and succeeded |
| Pipeline.FetchTargetCleansAgain | src/video_downloader.py:252 | the second cleaning can still remove characters: `\"` becomes empty |
| Pipeline.EmptyLinkEndsTheScan | src/video_downloader.py:129-134 | a usable anchor with `href` `\"` ends the search, and a later good anchor is not fetched |
| Pipeline.TypicalAnswerLink | src/video_downloader.py:170-178 | a `dl-success` anchor's link loses its trailing `\"` |
| Pipeline.TypicalVideoUrlIsValid | src/video_downloader.py:188-219 | a plain platform video URL passes validation |
| Pipeline.TypicalAnswerResolves | src/video_downloader.py:221-240 | that URL and answer resolve to the clean CDN link |
| Pipeline.CdnLinkIsClean | src/video_downloader.py:252 | the clean CDN link is fetched unchanged |
| Pipeline.ResolvesTypicalAnswer | src/video_downloader.py:320-347 | end to end: lookup made, file `v1mp4.mp4`, GET of the clean link, success when the fetch succeeds |
| InteractiveSession.Classify | src/video_downloader.py:368-390 | after stripping: `exit` in any case is Exit, `help` in any case is Help, the empty line is Blank, and exactly every other line is a Download of the stripped line |
| InteractiveSession.Continues | src/video_downloader.py:401-402 | after a fault the loop goes on exactly when the stripped, lowered answer is `y` or `yes` |
| InteractiveSession.Stops | src/video_downloader.py:371-403 | the events that end the loop: `exit`, an interrupt, or a declined fault prompt |
| InteractiveSession.Step | src/video_downloader.py:366-403 | one iteration of the loop body |
| InteractiveSession.Run | src/video_downloader.py:365-403 | the loop over a whole input: iterate `Step` until a stopping event or the end of input; `RunSpec` gives its closed form |
| InteractiveSession.FirstStop | src/video_downloader.py:365-403 | the first event that ends the loop (`exit`, an interrupt, or a declined fault prompt), or the end of the input |
| InteractiveSession.Successes | src/video_downloader.py:389-392 | the number of successful runs is at most the number of runs |
| InteractiveSession.SuccessesAppend | src/video_downloader.py:390-392 | one more run adds one to the count exactly when it succeeds |
| InteractiveSession.SuccessesSplit | src/video_downloader.py:390-392 | counts over consecutive runs add up |
| InteractiveSession.UrlsAppend | src/video_downloader.py:365-390 | the URLs of a longer input extend those of the shorter one |
| InteractiveSession.UrlsCons | src/video_downloader.py:365-390 | the same, event by event from the front |
| InteractiveSession.UrlsUntilStopIsPrefix | src/video_downloader.py:365-403 | the URLs met before stopping are those of the events before the first stop |
| InteractiveSession.RunInvoked | src/video_downloader.py:365-403 | the loop runs the pipeline for exactly those URLs, in order, and stops exactly when a stopping event occurs |
| InteractiveSession.RunCount | src/video_downloader.py:363-392 | the counter grows by the number of successful runs among them |
| InteractiveSession.RunSpec | src/video_downloader.py:363-403 | the whole loop: runs, count and whether it stopped, in closed form |
| InteractiveSession.RunFromStart | src/video_downloader.py:363-403 | the same from the initial state, with count 0 and no runs |
| InteractiveSession.RunUnfold | src/video_downloader.py:365-403 | one iteration followed by the rest of the loop |
| InteractiveSession.StopEffect | src/video_downloader.py:371-403 | `exit` (lines 371-374), an interrupt (lines 394-397) or a declined prompt (lines 401-403) ends the loop and changes nothing else |
| InteractiveSession.StepEffect | src/video_downloader.py:376-392 | `help` and empty lines run nothing; any other line runs the pipeline once, and the count rises by one exactly on success |
| InteractiveSession.CountMonotone | src/video_downloader.py:363-392 | the counter never decreases and never grows by more than the number of runs |
| InteractiveSession.RunInteractiveMode | src/video_downloader.py:349-403 | the loop computes `Run` from the start state: it runs the pipeline for the URL lines before the first stopping event, counts the successes, and reports whether a stopping event occurred |
| InteractiveSession.HelpThenExit | src/video_downloader.py:376-382 | `help` then `exit` runs nothing and ends with count 0 |
| InteractiveSession.CommandsIgnoreCaseAndSpace | src/video_downloader.py:368-371 | ` Exit\n` is `exit`; `YES ` continues after a fault and `no` does not |
| InteractiveSession.TrimAlreadyStripped | src/video_downloader.py:368 | a line without surrounding whitespace is its own strip |

## Left out

- HTTP traffic (`check_connection`, the POST in `extract_download_url`, the GET in `download_video_file`) is network I/O. Its outcomes are the `Environment` inputs. Every request, status, timeout or parse failure becomes a `None` lookup or a false `fetchOk`.
- HTML parsing by BeautifulSoup is a foreign library. The model starts from the parsed anchors.
- File and directory writes (`os.makedirs`, `open(...).write`, `os.path.join`) are filesystem I/O.
- The megabyte size display is floating point and only printed.
- Text.RemoveAllWholeCopies: states only how much length is lost, not that the removed characters are copies of the pattern. The content of `RemoveAll`'s result is given by its definition, whose recursion follows the left-to-right scan of `replace`.
- Pipeline.ProcessVideoDownload: the fetch outcome `fetchOk` is chosen without regard to the fetch target. The model allows success even for an empty target such as the one `Pipeline.FetchTargetCleansAgain` exhibits, where `requests.get('')` raises and the code returns False.
- `handle_request_error`, the header and endpoint set-up, and every `print` only configure requests or produce console text.
- `time.time()` is the `now` input of each run.
- `KeyboardInterrupt` is the `Interrupt` event. Any other exception in an iteration is a `Fault` event that comes before the counter changes.
- The session has no end-of-input case. When the events run out, the model simply stops. The program would raise at `input()` instead.
- Text.IsSpace: covers only the whitespace code points below 128. Python's `strip()` also removes Unicode spaces.
- Text.Lower: lowers ASCII letters only. Python's `lower()` is Unicode-aware.
- FilenameGenerator.FallbackFilename: modelled and proved safe, but `GenerateFilename` never selects it. With a string link, nothing in the normal branch raises.
- The downloader object's fields are set once in the constructor and never updated. They are not part of the model.
