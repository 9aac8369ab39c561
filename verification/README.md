# mj-automatic: generation pipeline and output naming, in Dafny

A model of the command-line script `src/imagine.ts`, which asks a Midjourney
client for an image, upscales one candidate, and saves it locally. Three
pieces of logic are modelled and proved:

- **`strPad`**: the general padding helper. Its `left`, `both` and `right`
  modes are modelled with JavaScript's own string rules. `new Array(n + 1).join(s)`,
  `slice` with negative positions and `substring` clamping are written out in
  `js_string.dfy`. Any pad string is allowed. An empty one is proved to leave
  the input unchanged. A non-empty one is proved to reach the exact width. Widths large enough to make JavaScript throw are left out (see below).
- **Output naming**: the prefix rule, the default destination `pics`, and
  `dest_dir + sep + file_prefix + strPad(sequence, 3, "0", "left") + '.png'`.
  The sequence number's `toString()` is modelled as exact decimal rendering,
  with a reading function that inverts it. The path separator is a parameter.
- **The generation pipeline**: the two `while (true)` retry loops around
  `client.Imagine` and `client.Upscale`, and the hand-off to the download.
  Each remote capability is a finite script of attempt outcomes. `None` is an
  empty (falsy) reply and `Some(x)` is a usable one. A run is the call trace
  plus the download request it ends with.

Files: `wrappers.dfy` (Option), `seqs.dfy` (replication), `js_string.dfy`
(JavaScript string primitives and string `<`), `decimal.dfy` (number to
decimal string and back), `str_pad.dfy` (module `Padding`), `output_path.dfy`,
`pipeline.dfy`.

The doc-comment above `strPad` (src/imagine.ts:28) says
`strPad('hello', 10, '-', 'both')` gives `'---hello--'`. The code computes
`right = ceil(gap / 2)`, so the odd pad character goes to the right and the
result is `'--hello---'`. This is also the convention of PHP's `str_pad`.
The model follows the code. `Padding.DocExampleBothDisagrees` proves the
code's result and that it differs from the documented one.

## Model

| member | source | states |
|---|---|---|
| Padding.ParsePadType | src/imagine.ts:43-52 | `'left'` selects left padding and `'both'` selects both-sides padding, each exactly for that name. An omitted mode, `'right'` and every other name select right padding. |
| Padding.StrPad | src/imagine.ts:36-54 | Never truncates: an input at least `padLength` long comes back unchanged. An empty pad string leaves any input unchanged. A non-empty pad gives exactly `padLength` characters. With `pad` the pad string repeated `padLength` times and `gap` the missing length, left mode gives the last `gap` characters of `pad` then the input. Right mode gives the input then the first `gap` characters of `pad`. Both mode gives `pad[..floor(gap/2)]`, the input, then `pad[..ceil(gap/2)]`. |
| Padding.PadLeft | src/imagine.ts:44-45 | With a non-empty pad the result is exactly `padLength` long: the last `padLength - |str|` characters of `pad` followed by `str`. With an empty pad it is `str` itself. |
| Padding.PadBoth | src/imagine.ts:46-49 | With a non-empty pad the result is exactly `padLength` long: the first `floor(gap/2)` characters of `pad`, then `str`, then the first `ceil(gap/2)` characters of `pad`. With an empty pad it is `str`. |
| Padding.PadRight | src/imagine.ts:50-52 | With a non-empty pad the result is exactly `padLength` long: `str` followed by the first `padLength - |str|` characters of `pad`. With an empty pad it is `str` itself. |
| Padding.StrPadDefault | src/imagine.ts:36 | With both optional arguments omitted, the input is followed by spaces up to `padLength` and is never cut. |
| Padding.SingleCharPadLayout | src/imagine.ts:41-52 | With a one-character pad `c` and gap `g`, left mode gives `g` copies of `c` then the input. Right mode gives the input then `g` copies. Both mode gives `floor(g/2)` copies, the input, then `ceil(g/2)` copies, so the right side is never shorter than the left and longer by at most one. |
| Padding.MultiCharPadLeft | src/imagine.ts:44-45 | A multi-character pad is cut, not rounded to whole copies: padding `x` to 4 with `ab` on the left gives `babx`. |
| Padding.MultiCharPadBoth | src/imagine.ts:46-49 | Padding `x` to 4 with `ab` on both sides gives `axab`. |
| Padding.MultiCharPadRight | src/imagine.ts:50-52 | Padding `x` to 4 with `ab` on the right gives `xaba`. |
| Padding.DocExamplesLeftAndRight | src/imagine.ts:27-29 | The documented `strPad('5', 4, '0', 'left') == '0005'` and `strPad('world', 10, '*') == 'world*****'` hold. |
| Padding.DocExampleBothDisagrees | src/imagine.ts:28 | `strPad('hello', 10, '-', 'both')` is `'--hello---'` and not the documented `'---hello--'`. |
| Padding.UnknownModeIsRight | src/imagine.ts:50-52 | Any mode name other than `'left'` and `'both'` pads exactly as `'right'` does. |
| JsString.Repeat | src/imagine.ts:41 | `new Array(n + 1).join(s)` is `n * |s|` characters long. It opens with `s` and repeats with period `|s|`. For a one-character `s` it is `n` copies of that character. |
| JsString.Slice | src/imagine.ts:45-49 | `slice(start, end)` with in-range positions is the characters from `start` up to `end`. Positions in the wrong order give the empty string. An end past the length is clamped to the length. Negative positions count back from the end. A start before the beginning counts as 0. |
| JsString.SliceFrom | src/imagine.ts:45 | `slice(start)` with a non-negative start is the suffix from `start`. A negative start takes that many characters from the end. A negative start reaching past the beginning takes the whole string. |
| JsString.Substring | src/imagine.ts:52 | `substring(start, end)` with in-range positions is the characters between them, in either order. An end past the length stops at the end of the string. |
| JsString.CeilHalf | src/imagine.ts:47 | `Math.ceil(x / 2)` is the least integer whose double reaches `x`. |
| Decimal.DecimalString | src/imagine.ts:37 | The string form of a sequence number is a non-empty digit string without a leading zero, and it reads back as the number. |
| Decimal.DecimalLength | src/imagine.ts:39 | The decimal form fits in `k` characters exactly when the number is below `10^k`. This decides whether padding to 3 happens. |
| OutputPath.FilePrefix | src/imagine.ts:67 | Empty exactly when the prefix is missing or empty. Otherwise it is the prefix followed by one `-`. |
| OutputPath.DestDir | src/imagine.ts:69 | Never empty: a given non-empty destination is kept, and a missing or empty one becomes `pics`. |
| OutputPath.SequenceLabel | src/imagine.ts:117 | Below 1000 the label is exactly 3 characters. From 1000 on it is the plain decimal, neither padded nor truncated. It is all digits and reads back as the sequence number. |
| OutputPath.BuildOutputPath | src/imagine.ts:117 | The path starts with the destination directory and the separator, and ends in `.png`. What follows the separator is the prefix part, the label and `.png`. |
| OutputPath.DashIffPrefix | src/imagine.ts:67 | The file name contains `-` exactly when a non-empty prefix was given. |
| OutputPath.PathInjective | src/imagine.ts:117 | For the same directory, separator and prefix, different sequence numbers give different paths. |
| OutputPath.LabelsSortNumerically | src/imagine.ts:117 | For sequence numbers below 1000, one label is string-less than another exactly when its number is smaller. |
| OutputPath.FoxExamplePath | src/imagine.ts:117 | Destination `out`, prefix `fox`, sequence 7 and separator `/` give `out/fox-007.png`. |
| OutputPath.DefaultsExamplePath | src/imagine.ts:69 | No destination, an empty prefix and sequence 1000 give `pics/1000.png`. |
| Pipeline.RetryUntilSome | src/imagine.ts:84-95 | The loop settles on the first usable reply of the script. It makes exactly (that attempt's index + 1) calls, and every earlier reply was empty. |
| Pipeline.RetryLoop | src/imagine.ts:84-95 | The literal loop with an attempt counter stops at the first usable reply, after the same number of calls, with the same value as `RetryUntilSome`. |
| Pipeline.RetryIgnoresLaterAttempts | src/imagine.ts:84-95 | Attempts scripted after the first usable reply never influence the loop's result or its call count. |
| Pipeline.UpscaleRequestFor | src/imagine.ts:100-104 | The upscale argument always names candidate index 1, and carries the `/imagine` job's id as `msgId`, its hash and its flags. |
| Pipeline.RunPipeline | src/imagine.ts:84-118 | `/imagine` is called until its first usable reply. Then upscale is called, each time with candidate index 1 and that job's id, hash and flags, until its first usable reply. No empty reply is passed on. The download fetches that reply's URI into the output path. |
| Pipeline.UpscaleAfterImagine | src/imagine.ts:97-114 | In the call trace no `/imagine` call follows an upscale call. The calls before the first upscale call are exactly the `/imagine` attempts. |
| Pipeline.RunIgnoresLaterAttempts | src/imagine.ts:84-118 | Extra attempts scripted after either phase's first usable reply leave the whole run unchanged. |
| Pipeline.TwoEmptyRepliesThenJob | src/imagine.ts:84-104 | Two empty `/imagine` replies followed by a job mean exactly three `/imagine` calls. The first upscale call then carries that job's id, hash and flags with index 1. |

## Left out

- `download` (src/imagine.ts:12-23): the HTTP fetch, the `axios-retry` policy, the file write and the log-and-swallow error path are I/O and library behaviour. The model stops at the `DownloadRequest` (URI and path) handed to it. `axios-retry` with `retries: 3` allows up to three retries after the first request, i.e. four attempts.
- `ensureDirectoryExists` (src/imagine.ts:56-60): filesystem side effects.
- Argument parsing with yargs, dotenv loading and the environment-sourced credentials: configuration plumbing. Their values enter the model as parameters.
- The Midjourney client's `Connect`, `Close` and the internals of `Imagine`/`Upscale`: an opaque websocket client. Only its empty-or-result replies are kept, as scripts. A thrown client error is not modelled.
- Progress callbacks, `console` output, `async`/`await` suspension and the exit status set by the top-level `.catch`: observational or host-process behaviour.
- Pipeline.RetryUntilSome: the real loops are unbounded and may never end. The model requires the script to contain a usable reply, so liveness is assumed, not proved.
- Decimal.DecimalString: exact decimal rendering. JavaScript renders numbers from 10^21 upward in exponent form and loses integer precision beyond 2^53. Neither is modelled.
- OutputPath.SequenceLabel: only non-negative integer sequence values are modelled. A negative one (e.g. -5 becomes `0-5`, which puts a dash in the file name even without a prefix), a fractional one (1.5 stays `1.5`), a missing one (`toString()` of `undefined` throws) and a non-numeric one (padded as text) are not. OutputPath.DashIffPrefix holds only for the modelled values.
- OutputPath.FilePrefix: the prefix and destination are modelled as optional strings. yargs may coerce numeric arguments, e.g. `--prefix 0` becomes the falsy number 0 and gives no prefix. That coercion is not modelled.
- Padding.StrPad: `padLength` is an unbounded integer. Several widths make `new Array(padLength + 1)` or `join` throw a RangeError, and the model instead returns a string of exactly `padLength` characters. These are a fractional width longer than the input, a width of 2^32 - 1 or more (an array length must stay below 2^32), and a `padLength * |padString|` beyond the engine's maximum string length. None of these error paths is modelled. String lengths count characters, where JavaScript counts UTF-16 code units. The two agree for the ASCII text used here.
