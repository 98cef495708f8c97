# 8mbdock video compressor — a Dafny model of its core

8mbdock is a browser application that shrinks a video to fit a size limit (8 MB
by default) by running FFmpeg compiled to WebAssembly inside the page. This
project models the part of the application that decides what happens:

- the two compression services (`VideoCompressionService`, the old one, and
  `VideoCompressionServiceV2`, the current one); they load the engine from one
  or more asset sources, write the file into the engine's in-memory file system,
  estimate a duration, choose a bitrate cap and buffer size, run one encode
  command, read the result back and clean up, reporting stages 0–5 and a
  percentage along the way;
- the progress parser that turns ffmpeg's `time=HH:MM:SS.ff` log lines and the
  engine's ratio events into percentages;
- the file validator and bitrate helper in `utils/index.js`, and the browser
  compatibility check and its message in `utils/compatibility.js`;
- the upload card (`FileUpload.js`): format-then-size validation, the
  first-file drop rule, the drag highlight and the `accept` filter;
- the page controller (`VideoCompressor.js`): its state transitions and the
  name it gives the download.

The modules:

- `Text`: JavaScript's one-character `split`, `join`, ASCII `toLowerCase`,
  `replace(/x/g, y)`, `includes` and number rendering.
- `Media`: files and blobs as names and bytes. `FileNames`: the extension rule.
- `Planner`: the duration estimates, the bitrate and buffer arithmetic, the
  working-set file names and the encoder argument list.
- `Progress`: the log-line pattern and the progress callbacks.
- `Loader`: the order in which asset sources are tried and how a load error is
  reworded.
- `FFmpeg`: the engine as an object with a loaded flag and a name-to-bytes file
  map. Every engine call takes its own outcome as an input, because the engine
  is foreign code.
- `Session`: what one `compressVideo` call does, as a function of the service
  state and the engine's answers.
- `Service`: the service class. Its methods mutate its fields and the engine and
  are proved to follow `Session` and `Progress`.
- `Validation`, `Compatibility`, `Upload`, `Compressor`: the utilities and the
  two components. `Compatibility`, `Upload` and `Compressor` are classes or
  methods with loops where the source mutates state.

The two service classes differ only in data: asset sources, isolation message,
preset, crf, bitrate floor, buffer multiple, audio rate, and whether an
oversize result is warned about. So they are one class parameterised by a
`Tuning` value, `Session.Legacy` or `Session.Current`. `getVideoInfo` exists
only in the old class and requires `Legacy`. The old class loads from the
proxy alone; that is modelled as the same loop over a one-element source list,
which behaves the same.

Behaviour of the code worth knowing:

- The working set is cleaned up only after a successful read. A failing write,
  encode or read leaves the input (and any output) in the engine.
- The first failing delete skips the second; both failures are swallowed.
- Ratio events are capped at 100 but not floored at 0, so a negative ratio
  reaches the callback as a negative percentage.
- A failed call can still have forwarded an engine progress of 100 during the
  encode. Only the final 100 checkpoint and stage 5 are absent.
- The log pattern's unescaped `.` matches any single UTF-16 code unit except a
  line terminator; a character outside the Basic Multilingual Plane there
  leaves the line unmatched (`Progress.AstralWildcardExample`). `parseFloat` of
  the seconds field then reads `12.34`, `12345`, `12e34` or `12`, depending on
  that character. All four cases are modelled
  (`Progress.ParseSeconds`, `Progress.WildcardDigitExample`).
- `getVideoInfo` names its file without lower-casing the extension, and never
  deletes it.
- An initialization error escapes `compressVideo` without the
  `Compression failed: ` prefix; every later error carries it.
- After `terminate`, the next `compressVideo` builds a fresh engine
  (`Service.CompressionService.CompressVideo` ensures `fresh(ffmpeg)` when the
  service was not loaded).

Numbers are exact: JavaScript's doubles become Dafny `real`s with `.Floor`, where
the code uses `Math.floor`. The `-bufsize` of the current service is
`maxrate * 1.5`; it is kept in half-kbps and rendered as JavaScript prints it,
e.g. `1821` or `1821.5` (`Planner.HalfText`).

## Model

| member | source | states |
|---|---|---|
| Text.LastSplit | video-compressor/src/utils/index.js:13 | `split('.').pop()` is the text after the last dot; it holds no dot; it is the whole string when there is no dot |
| Text.JoinSplit | video-compressor/src/utils/index.js:13 | joining the pieces of a split with the same separator gives the original string back |
| Text.SplitJoin | video-compressor/src/components/FileUpload.js:80 | splitting a join of separator-free pieces gives the pieces back |
| Text.ToLowerAscii | video-compressor/src/utils/index.js:13 | lower-casing keeps the length, turns each upper-case ASCII letter into its lower-case partner and changes nothing else |
| Text.ToLowerAsciiIdempotent | video-compressor/src/services/VideoCompressionServiceV2.js:119 | lower-casing twice is lower-casing once |
| Text.ReplaceAll | video-compressor/src/components/VideoCompressor.js:87 | `replace(/\./g, '_')` keeps the length, swaps each matching character and leaves none behind |
| Text.NatToString | video-compressor/src/utils/index.js:21 | a natural number renders as a non-empty string of decimal digits with no leading zero |
| Text.DigitsValueOfNatToString | video-compressor/src/services/VideoCompressionServiceV2.js:155 | reading the rendered digits back gives the number; with no leading zero (`Text.NatToString`) this is the one rendering JavaScript prints, so `${targetBitrate}k` is exact |
| FileNames.ExtensionOf | video-compressor/src/utils/index.js:13 | the extension holds no dot; it is the text after the last dot, or the whole name |
| FileNames.ExtensionOfDotted | video-compressor/src/services/VideoCompressionServiceV2.js:119 | whatever precedes a last dot, the extension is exactly what follows it |
| Planner.EstimateDuration | video-compressor/src/services/VideoCompressionServiceV2.js:129-130 | the estimate is at least 5 s and at least half a second per MiB; it is exactly one of the two, switching at 10 MiB |
| Planner.ProbeDuration | video-compressor/src/services/VideoCompressionService.js:96 | the probe estimate is at least 10 s and one second per MiB, switching at 10 MiB |
| Planner.Bitrate | video-compressor/src/services/VideoCompressionServiceV2.js:142-145 | the cap is never below the floor; above it, it is the largest whole kbps with 128 kbps of audio that fits the budget |
| Planner.BitrateNonIncreasing | video-compressor/src/services/VideoCompressionServiceV2.js:142-145 | a longer duration never raises the cap |
| Planner.HalfTextValue | video-compressor/src/services/VideoCompressionServiceV2.js:156 | the rendering of h/2 reads back as h/2: digits for even h, digits then `.5` for odd h |
| Planner.Plan | video-compressor/src/services/VideoCompressionServiceV2.js:142-156 | the plan's cap is the floored bitrate, and its buffer is the service's multiple of the cap |
| Planner.InputFileNameShape | video-compressor/src/services/VideoCompressionServiceV2.js:119-120 | the input name ends in the lower-cased original extension and never equals `output.mp4` |
| Planner.EncoderArgsSettings | video-compressor/src/services/VideoCompressionServiceV2.js:150-163 | read left to right, the command's `-i`, `-preset` and `-crf` values are the input name and the service's settings |
| Planner.EncoderArgsRates | video-compressor/src/services/VideoCompressionServiceV2.js:155-156 | the command's `-maxrate` and `-bufsize` values are the plan's cap and buffer with a `k` suffix |
| Planner.EncoderArgsOutput | video-compressor/src/services/VideoCompressionServiceV2.js:150-163 | the command has 22 arguments, the last of which is `output.mp4` |
| Planner.CurrentPlanFor100MB | video-compressor/src/services/VideoCompressionServiceV2.js:129-156 | a 100 MiB file under the current service: 50 s, a 1214k cap and a 1821k buffer |
| Planner.LegacyPlanFor2000MB | video-compressor/src/services/VideoCompressionService.js:133-162 | a 2000 MiB file under the old service: 1000 s, the 300k floor and a 600k buffer |
| Progress.FirstMatchFrom | video-compressor/src/services/VideoCompressionServiceV2.js:85 | `match` finds the leftmost position where the time pattern matches, or reports that none does |
| Progress.ParseSeconds | video-compressor/src/services/VideoCompressionServiceV2.js:89 | the seconds are never negative; with a literal dot they lie between the whole seconds and one more |
| Progress.StampSeconds | video-compressor/src/services/VideoCompressionServiceV2.js:87-91 | the elapsed time of a matched stamp is never negative |
| Progress.ElapsedSeconds | video-compressor/src/services/VideoCompressionServiceV2.js:85-91 | a line yields a non-negative elapsed time when its first stamp matches |
| Progress.LogProgress | video-compressor/src/services/VideoCompressionServiceV2.js:84-98 | a value is forwarded exactly when there is a callback, a stamp and a truthy duration; it is elapsed/duration×100 capped at 100, and non-negative for a positive duration |
| Progress.MatchContainsKey | video-compressor/src/services/VideoCompressionServiceV2.js:23-25 | the `includes('time=')` guard never hides a line the parser would read |
| Progress.RatioProgress | video-compressor/src/services/VideoCompressionServiceV2.js:29-34 | a ratio is forwarded exactly with a callback and a defined value; it is capped at 100, equals 100 exactly for ratios ≥ 1, and is ratio×100 below that |
| Progress.ForwardAll | video-compressor/src/services/VideoCompressionServiceV2.js:21-34 | at most one value per event is forwarded, and none above 100 |
| Progress.ForwardAllAppend | video-compressor/src/services/VideoCompressionServiceV2.js:21-34 | forwarding two runs of events is forwarding each in turn |
| Progress.ForwardAllWithoutCallback | video-compressor/src/services/VideoCompressionServiceV2.js:31-32 | without a progress callback nothing is forwarded |
| Progress.StampMatches | video-compressor/src/services/VideoCompressionServiceV2.js:85 | ffmpeg's `time=HH:MM:SS.ff` rendering of a clock matches the pattern and reads back as the clock's seconds |
| Progress.ElapsedOfStamp | video-compressor/src/services/VideoCompressionServiceV2.js:85-91 | a stamp after `t`-free text is read back exactly, whatever follows it |
| Progress.NoMatchBefore | video-compressor/src/services/VideoCompressionServiceV2.js:85 | no match starts inside a prefix without `t` |
| Progress.FirstMatchSkips | video-compressor/src/services/VideoCompressionServiceV2.js:85 | the leftmost match is the first matching position after non-matching ones |
| Progress.ExampleStamp | video-compressor/src/services/VideoCompressionServiceV2.js:85 | ffmpeg prints 1 min 30.5 s as `time=00:01:30.50` |
| Progress.ExampleElapsed | video-compressor/src/services/VideoCompressionServiceV2.js:85-91 | `frame=100 time=00:01:30.50` reads as 90.5 s elapsed |
| Progress.LogProgressExample | video-compressor/src/services/VideoCompressionServiceV2.js:84-98 | `frame=100 time=00:01:30.50` of a 180 s video forwards 90.5/180×100 |
| Progress.WildcardDigitExample | video-compressor/src/services/VideoCompressionServiceV2.js:85-92 | `time=00:00:12345` reads as 12345 s, so a 60 s video jumps to 100 |
| Progress.AstralWildcardExample | video-compressor/src/services/VideoCompressionServiceV2.js:85-92 | a character outside the Basic Multilingual Plane in the wildcard position leaves the line unmatched, so no progress is forwarded |
| Loader.FirstLoad | video-compressor/src/services/VideoCompressionServiceV2.js:48-65 | the chosen source loads, and every source before it failed; with no choice, every source failed |
| Loader.Tried | video-compressor/src/services/VideoCompressionServiceV2.js:48-65 | the sources tried are a prefix of the list that ends with the one that loads, or the whole list when all fail |
| Loader.InitializeOutcome | video-compressor/src/services/VideoCompressionServiceV2.js:13-81 | initialization succeeds exactly when some source loads |
| Loader.ClassifyCases | video-compressor/src/services/VideoCompressionServiceV2.js:72-80 | an error naming `SharedArrayBuffer` or `crossOriginIsolated` becomes the isolation message, any other is wrapped after the engine prefix, and the two never coincide |
| Loader.CurrentSourceOrder | video-compressor/src/services/VideoCompressionServiceV2.js:39-65 | the proxy is tried first, unpkg second, and jsDelivr only after both failed |
| Loader.AllFailReportsLast | video-compressor/src/services/VideoCompressionServiceV2.js:67-69 | when every source fails, the last source's error is the one classified |
| FFmpeg.Engine.constructor | video-compressor/src/services/VideoCompressionServiceV2.js:18 | a new engine is not loaded, has an empty file system and has run nothing |
| FFmpeg.Engine.Load | video-compressor/src/services/VideoCompressionServiceV2.js:52-55 | a load records its source and marks the engine loaded when it succeeds |
| FFmpeg.Engine.WriteFile | video-compressor/src/services/VideoCompressionServiceV2.js:123 | a successful write makes the name hold exactly the bytes, and nothing else changes |
| FFmpeg.Engine.Exec | video-compressor/src/services/VideoCompressionServiceV2.js:166 | a command is recorded, and on success its output files join the working set |
| FFmpeg.Engine.ReadFile | video-compressor/src/services/VideoCompressionServiceV2.js:173 | a read returns the stored bytes, the engine's error, or its missing-file error |
| FFmpeg.Engine.DeleteFile | video-compressor/src/services/VideoCompressionServiceV2.js:180-181 | a delete succeeds exactly when the file is present, and then removes just that file |
| FFmpeg.Engine.Terminate | video-compressor/src/services/VideoCompressionServiceV2.js:200 | a terminated engine is unloaded and its file system is empty |
| Session.RunIsEncode | video-compressor/src/services/VideoCompressionServiceV2.js:105-112 | unless a first initialization fails, a call is the encode part on the engine it starts with, after the stage-0 opening when not loaded |
| Session.EncodeSuccessShape | video-compressor/src/services/VideoCompressionServiceV2.js:114-189 | a successful encode part returned the bytes of `output.mp4` as a `video/mp4` blob, emitted every checkpoint in order and cleaned up |
| Session.EncodeFailureShape | video-compressor/src/services/VideoCompressionServiceV2.js:191-194 | a failing encode part carries the `Compression failed: ` prefix and its emissions stop after the write, the encode or the read |
| Session.SuccessTrace | video-compressor/src/services/VideoCompressionServiceV2.js:105-189 | a successful call reports the stages (0,) 1, 2, 3, 4, 5 once each in order, forwards engine progress between 25 and 85, and returns the encoder's output |
| Session.FailureTrace | video-compressor/src/services/VideoCompressionServiceV2.js:105-194 | a failed call never reaches stage 5; an initialization failure escapes as it is, with nothing run, and any later failure is prefixed |
| Session.CommandPlan | video-compressor/src/services/VideoCompressionServiceV2.js:137-163 | the encode command carries the input name, the planned cap (never below the floor), the planned buffer, and `output.mp4` last |
| Session.CleanupEffect | video-compressor/src/services/VideoCompressionServiceV2.js:178-184 | after a success with both deletes done, neither file remains; a failing first delete leaves both |
| Session.LoadedSkipsInitialize | video-compressor/src/services/VideoCompressionServiceV2.js:106-117 | a loaded service starts directly at stage 1 with progress 5 |
| Session.CurrentCommandFor100MB | video-compressor/src/services/VideoCompressionServiceV2.js:129-156 | for a 100 MiB file the current service asks for `-maxrate 1214k` and `-bufsize 1821k` |
| Session.ProbeInfoCases | video-compressor/src/services/VideoCompressionService.js:82-106 | `getVideoInfo` reports the file's size with the 60 s fallback or an estimate of at least 10 s; only a failed initialization is an error, reworded by the classifier |
| Service.CompressionService.constructor | video-compressor/src/services/VideoCompressionServiceV2.js:6-11 | a new service has no engine, is not loaded, and has no duration and no callbacks |
| Service.CompressionService.SetCallbacks | video-compressor/src/services/VideoCompressionServiceV2.js:100-103 | both callbacks are set, and nothing else changes |
| Service.CompressionService.Initialize | video-compressor/src/services/VideoCompressionServiceV2.js:13-82 | a loaded service does nothing; otherwise a fresh engine tries the sources in order up to the first that loads, and the outcome is `Loader.InitializeOutcome` |
| Service.CompressionService.ParseProgressFromLog | video-compressor/src/services/VideoCompressionServiceV2.js:84-98 | the value handed to the callback is `Progress.LogProgress` of the line |
| Service.CompressionService.OnLog | video-compressor/src/services/VideoCompressionServiceV2.js:21-26 | the log handler forwards what `Progress.Forward` gives for the line |
| Service.CompressionService.OnProgress | video-compressor/src/services/VideoCompressionServiceV2.js:29-34 | the progress handler forwards what `Progress.Forward` gives for the ratio |
| Service.CompressionService.DispatchEvents | video-compressor/src/services/VideoCompressionServiceV2.js:21-34 | handling a run of engine events forwards exactly `Progress.ForwardAll` of them |
| Service.CompressionService.CompressVideo | video-compressor/src/services/VideoCompressionServiceV2.js:105-195 | the result, every callback value, the loaded flag, the working set, the stored duration and the commands are those of `Session.Run`; the old service warns exactly for an oversize result |
| Service.CompressionService.EncodeOnEngine | video-compressor/src/services/VideoCompressionServiceV2.js:114-194 | on a ready engine, the call follows `Session.Encode` step by step |
| Service.CompressionService.GetVideoInfo | video-compressor/src/services/VideoCompressionService.js:82-106 | the old service's probe returns `Session.ProbeInfo`, writes the probe file into the working set and stores the estimate only when write and probe succeed |
| Service.CompressionService.Terminate | video-compressor/src/services/VideoCompressionServiceV2.js:197-206 | only a loaded engine is torn down, whatever the engine reports, and the service ends unloaded |
| Service.AllFailed | video-compressor/src/services/VideoCompressionServiceV2.js:67-69 | when every source fails, none loads |
| Service.FirstLoadAt | video-compressor/src/services/VideoCompressionServiceV2.js:48-59 | the loop stops at the first source that loads, having tried exactly the sources up to it |
| Validation.FormatError | video-compressor/src/utils/index.js:15 | the format error opens with `Unsupported file format. Please use: ` |
| Validation.SizeError | video-compressor/src/utils/index.js:21 | the size error opens with `File too large. Maximum size: ` |
| Validation.ErrorsDiffer | video-compressor/src/utils/index.js:15-21 | the two error texts are never equal |
| Validation.OversizedInMegabytes | video-compressor/src/utils/index.js:19-20 | the whole-byte comparison is the megabyte comparison the code writes |
| Validation.FileErrors | video-compressor/src/utils/index.js:9-28 | each error is present exactly when its check fails, format first, size second, and no other error appears |
| Validation.ValidateVideoFile | video-compressor/src/utils/index.js:9-28 | the pushed errors are `FileErrors`, and the file is valid exactly when there are none |
| Validation.ValidExactly | video-compressor/src/utils/index.js:24-27 | a file is valid exactly when its format is supported and it is not oversized; a file exactly at the limit passes |
| Validation.CalculateTargetBitrate | video-compressor/src/utils/index.js:30-38 | the rate is at least 200; above that, it is the largest whole kbps with 128 kbps of audio that fits the budget |
| Validation.TargetBitrateExample | video-compressor/src/utils/index.js:30-38 | 8 MB over 60 s gives 990 kbps |
| Validation.TargetBitrateNonIncreasing | video-compressor/src/utils/index.js:30-38 | a longer video never gets a higher rate |
| Validation.TargetBitrateBelowServices | video-compressor/src/utils/index.js:33-36 | for the same inputs the helper never exceeds either service's cap |
| Compatibility.Detect | video-compressor/src/utils/compatibility.js:2-7 | the flags are the probes, and an undefined `crossOriginIsolated` counts as false |
| Compatibility.IssuesMeaning | video-compressor/src/utils/compatibility.js:9-25 | one issue per missing feature and no other, in the fixed order SharedArrayBuffer, WebAssembly, isolation, workers; none exactly when all four are present |
| Compatibility.CheckCompatibility | video-compressor/src/utils/compatibility.js:1-32 | the pushed issues are `Issues` of the detected flags, and `isCompatible` holds exactly when there are none |
| Compatibility.CompatibleExactly | video-compressor/src/utils/compatibility.js:27-31 | a browser is compatible exactly when it has all four features and is cross-origin isolated |
| Compatibility.AppendNumberedLines | video-compressor/src/utils/compatibility.js:42-44 | the loop appends `n. issue` for every issue, numbered from 1 in order, which is `NumberedLines` |
| Compatibility.GetCompatibilityMessage | video-compressor/src/utils/compatibility.js:34-54 | a compatible browser gets the success notice; any other gets the header, the numbered lines of `NumberedLines` and the remedies |
| Compatibility.NumberedLinesPrefix | video-compressor/src/utils/compatibility.js:42-44 | the lines for the first k issues begin the lines for all of them |
| Compatibility.LineAt | video-compressor/src/utils/compatibility.js:42-44 | the line of issue k, numbered k+1, sits right after the lines of the issues before it |
| Compatibility.NumberedLinesHoldEach | video-compressor/src/utils/compatibility.js:42-44 | every issue appears on a line numbered with its position counted from 1 |
| Compatibility.SurroundedLinesHoldEach | video-compressor/src/utils/compatibility.js:41-51 | whatever header and tail surround them, the numbered lines stay in the message |
| Compatibility.NoticeCases | video-compressor/src/utils/compatibility.js:34-54 | a compatible browser gets the success notice; any other gets an error notice that opens with the header, lists every issue numbered from 1 and ends with the remedies |
| Upload.UploadErrorIsFirstError | video-compressor/src/components/FileUpload.js:7-25 | the upload check stops at the first error of the full validator, accepts exactly what it accepts, and reports the format error whatever the size |
| Upload.AcceptRoundTrip | video-compressor/src/components/FileUpload.js:80 | the `accept` string splits on `,` back into the dotted formats |
| Upload.Uploader.constructor | video-compressor/src/components/FileUpload.js:3-5 | the card starts without highlight, error or selection |
| Upload.Uploader.ValidateFile | video-compressor/src/components/FileUpload.js:7-25 | the error is cleared and then set to the first failing check; the file passes exactly when the error stays empty |
| Upload.Uploader.HandleFileSelect | video-compressor/src/components/FileUpload.js:27-31 | only a file that passes validation is handed on |
| Upload.Uploader.HandleDrop | video-compressor/src/components/FileUpload.js:33-41 | a drop turns the highlight off and considers only its first file; an empty drop selects nothing |
| Upload.Uploader.HandleDragOver | video-compressor/src/components/FileUpload.js:43-46 | dragging over turns the highlight on and changes nothing else |
| Upload.Uploader.HandleDragLeave | video-compressor/src/components/FileUpload.js:48-51 | leaving turns the highlight off and changes nothing else |
| Upload.Uploader.HandleInputChange | video-compressor/src/components/FileUpload.js:53-58 | the first chosen file, if any, goes through the same selection; the highlight is left alone |
| Compressor.DisplayAfterRun | video-compressor/src/components/VideoCompressor.js:50-54 | after a successful call the display shows stage 5 and 100 percent; after a failed one it never shows stage 5 |
| Compressor.StripExtension | video-compressor/src/components/VideoCompressor.js:86 | the stem is a prefix of the name |
| Compressor.StripExtensionRoundTrip | video-compressor/src/components/VideoCompressor.js:86 | a trailing dot and an extension without dots or slashes are removed exactly |
| Compressor.StripExtensionEdges | video-compressor/src/components/VideoCompressor.js:86 | a name without a dot, ending in a dot, or with a slash after its last dot is kept whole; `.bashrc` gives an empty stem |
| Compressor.DownloadNameShape | video-compressor/src/components/VideoCompressor.js:85-88 | the name is the stem, `-8mb-`, the host with no dots left, and `.mp4` |
| Compressor.DownloadNameExample | video-compressor/src/components/VideoCompressor.js:85-88 | `my.clip.MOV` on `example.com` downloads as `my.clip-8mb-example_com.mp4` |
| Compressor.Compressor.constructor | video-compressor/src/components/VideoCompressor.js:10-17 | the page starts empty, with a fresh current service that is not loaded |
| Compressor.Compressor.Mount | video-compressor/src/components/VideoCompressor.js:19-25 | an incompatible browser's message is kept for display, and nothing else changes |
| Compressor.Compressor.DismissCompatibility | video-compressor/src/components/VideoCompressor.js:128 | "Continue Anyway" clears the compatibility message only |
| Compressor.Compressor.Unmount | video-compressor/src/components/VideoCompressor.js:26-29 | unmounting terminates the service, which ends unloaded |
| Compressor.Compressor.HandleFileSelect | video-compressor/src/components/VideoCompressor.js:32-38 | a new file clears the result and the error and resets progress and stage to 0 |
| Compressor.Compressor.HandleCompress | video-compressor/src/components/VideoCompressor.js:40-70 | nothing happens without a file; otherwise the display follows the service's callbacks from 0, and ends with the blob or the error message, no longer compressing; the warning fires exactly when the target is missed |
| Compressor.Compressor.HandleCancel | video-compressor/src/components/VideoCompressor.js:72-80 | cancelling stops compressing, resets progress and stage to 0, terminates the service and reports `Compression cancelled` |
| Compressor.Compressor.HandleDownload | video-compressor/src/components/VideoCompressor.js:82-88 | nothing is downloaded unless there are both a result and a file; then the name is `DownloadName` |
| Compressor.Compressor.HandleReset | video-compressor/src/components/VideoCompressor.js:100-107 | reset clears the file, the result, the error and the compressing flag, and zeroes progress and stage |

## Left out

- The engine itself: `load`, `writeFile`, `exec`, `readFile`, `deleteFile` and `terminate` are foreign code. Each call's outcome is an input, and the engine is a loaded flag plus a name-to-bytes map.
- `fetchFile` and `toBlobURL` fetch over the network. Their failures are folded into the outcome of the engine call they feed.
- How the engine words a read of a missing file is an input (`Host.missingFile`), because that text comes from the engine.
- Service.CompressionService.CompressVideo: engine events are a sequence handed to the encode step. They are not interleaved with the other steps, and events during `getVideoInfo`'s probe are not modelled.
- Compressor.Compressor.HandleCancel: a cancel racing an in-flight `compressVideo` is not modelled. In the browser, its late rejection can overwrite `Compression cancelled`.
- Timing, `console` logging, `async` scheduling and React re-rendering are not modelled.
- Text.ToLowerAscii: lower-cases ASCII letters only. JavaScript's `toLowerCase` also maps non-ASCII letters.
- Progress.MatchesAt: strings are sequences of Unicode scalar values, not of UTF-16 code units. The only place the difference shows is the wildcard, which `Progress.WildcardMatches` limits to one code unit; positions are counted in characters.
- Planner.Bitrate: computes in exact reals. IEEE-754 double rounding before `Math.floor` is not modelled.
- Validation.CalculateTargetBitrate: requires a non-zero duration. JavaScript would produce a result from `Infinity` or `NaN`.
- Validation.FileErrors: the size limit is a whole number of megabytes. A fractional `maxSizeMB` is not modelled; the configured limits are whole.
- Upload.UploadErrorIsFirstError: also takes a whole-megabyte limit, for the same reason.
- `NaN` durations and progress values are not modelled; `Truthy` treats every defined non-zero real as truthy.
- `formatFileSize`, the compression ratio and every `toFixed` display use logarithms and double rounding.
- `getVideoMetadata`, `downloadBlob`, the anchor click in `handleDownload`, object URLs and `debounce` are DOM and timer code.
- The presentational components (header, footer, preview, progress bar, troubleshooting panel, authentication), `App.js` routing and `localStorage` are not part of this model.
- The HTTP servers and the development proxy only set headers and pipe requests.
- `config.json` is not part of this model. The size limit and the formats are parameters: `targetSizeMB`, `maxFileSizeMB`, `acceptedFormats`, `maxSize`.
