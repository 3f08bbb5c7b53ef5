# image-metadata-updater, modelled in Dafny

The tool walks a folder of photos and screenshots. For each one it infers the capture time
from the file name (`PXL_20230615_101500.jpg`, `IMG_…`, `Screenshot_…`). It then writes that
time into the file's metadata:

- for JPEG, the EXIF `DateTimeOriginal` and `DateTimeDigitized` tags;
- for PNG, a `Creation Time` text chunk.

A pool of worker threads processes the files. The main thread counts the successes and
collects the failures as the workers finish.

This project models the core of `test.py` and proves what it does. The model has these
modules:

- **Text.** The string operations the core relies on: ASCII digits and `int()`,
  `str.lower()`, `str.endswith`, and the substring test `t in s`.
- **Calendar.** Python's `datetime(year, month, day, hour, minute, second)` constructor, with
  its range checks in CPython's order and the `ValueError` each check raises.
- **Formats.**
  - `strftime` with the EXIF layout `%Y:%m:%d %H:%M:%S` and the PNG layout
    `%Y-%m-%d %H:%M:%S`.
  - `strptime` with the EXIF layout, as CPython's `_strptime` regular expression reads it.
    Single-digit fields are accepted, `\s+` stands for the space, and leftover text is
    refused.
- **Inference.** `extract_date_from_title`. The four regular expressions are token lists
  interpreted by a small backtracking matcher: literals, fixed-width digit groups and a
  greedy `\d+`. `re.search` is the leftmost match. The pattern list is tried in order,
  subject to the six-group check.
- **Writers.** `update_metadata_jpeg` and `update_metadata_png`, over an abstract file. A
  file is what `piexif.load` and `Image.open(...).info` return (or the message they raise),
  plus whether saving raises.
- **Processor.** `process_file`:
  - `os.path.basename`;
  - the lower-cased extension dispatch;
  - the two statuses it produces itself;
  - the `ValueError` that escapes it.
- **Batch.** The completion loop of `process_images`, as a `while` loop over the futures in
  any completion order (a permutation of the submitted files).

The main results are these:

- the inference is a leftmost match of the first convention present in the name, and
  returns no date exactly when none of the three timestamped layouts occurs;
- the WhatsApp pattern matches its names but is always rejected by the group-count check;
- an impossible date raises instead of returning no date;
- what the JPEG writer stores parses back to the same time, and both writers are
  idempotent (a second run reports "Already matches" and writes nothing);
- as long as printing does not raise, every completion of the tally adds exactly one
  success or one failure, so `successful + len(failed_images) == total_files`;
- the completion order changes neither the success count nor which failures are listed
  (only the order of `failed_images` depends on it);
- a status counts as a success exactly when it contains ✅ or 🛠️.

Behaviour of the code that the model keeps:

- The PNG writer saves a fresh `PngInfo` holding only `Creation Time` (test.py:71-74). The
  other text chunks are not copied over.
- `IMG-YYYYMMDD-WA…` names get no date at all (test.py:22, 26): the pattern has three
  groups, so the six-group test always rejects it. The docstring of
  `extract_date_from_title` (test.py:10-17) lists that format as supported; the model
  follows the code.
- A `ValueError` from an impossible date in a name is not caught inside `process_file`. It
  reaches the tally's `except` branch and is listed as "❌ Unexpected error: …"
  (test.py:133-135).

## Model

| member | source | states |
|---|---|---|
| Calendar.MakeTimestamp | test.py:28 | the constructor succeeds exactly on a valid calendar date and time of day and then holds those fields; otherwise its error names a check that fails, and every earlier check passes |
| Text.Dec | test.py:27 | `int()` of `n` ASCII digits is below `10^n` |
| Text.DecTwoDigits | test.py:27 | `int()` reads a zero-padded two-digit rendering back as its value |
| Text.Lower | test.py:90 | `lower()` keeps the length and lower-cases each character on its own, A-Z to a-z |
| Text.EndsWith | test.py:90-92 | `endswith` holds exactly when the last characters of the text are those of the suffix, one by one |
| Text.Contains | test.py:127 | `in` holds for the empty text; never for a text longer than the string; for one or two characters, exactly when they appear at some index, in order |
| Inference.RunLength | test.py:22 | `\d+` starts from the whole run of digits at the index: the run is digits and ends at a non-digit or the end of the name |
| Inference.MatchAt | test.py:19-22 | an anchored match captures exactly as many values as the pattern has groups |
| Inference.Search | test.py:25 | a successful search captures exactly as many values as the pattern has groups |
| Inference.FromGroups | test.py:27-28 | six captured numbers give a date exactly when they form a valid `datetime`, with those fields; otherwise the constructor's error: it names a failing check and every earlier check passes, so it is the error the constructor raises; never "no date" |
| Inference.TimeMatch | test.py:19-21 | the three time groups match exactly when six digits follow, capturing hour, minute and second two digits each |
| Inference.SepTimeMatch | test.py:19-21 | the separator and the time groups match exactly when the separator and six digits follow |
| Inference.DateMatch | test.py:19-21 | the date groups, separator and time groups match exactly when 8 digits, the separator and 6 digits follow, capturing the six fields |
| Inference.MatchStamp | test.py:19-21 | a timestamp pattern matches at an index exactly when the tag, 8 digits, the separator and 6 digits start there, and captures the six fields read by position |
| Inference.SearchLeftmost | test.py:25 | `re.search` returns the match at the first index where the pattern matches |
| Inference.SearchNone | test.py:25 | `re.search` finds nothing exactly when the pattern matches at no index (both directions) |
| Inference.StampSearch | test.py:19-25 | a timestamp convention's search returns the fields of the leftmost timestamp in the name |
| Inference.StampSearchNone | test.py:19-25 | a timestamp convention's search finds nothing exactly when no such timestamp occurs anywhere in the name (both directions) |
| Inference.StampGroupCount | test.py:19-21 | the three timestamp patterns have six groups, so they pass the check on line 26 |
| Inference.WhatsAppGroupCount | test.py:22 | the WhatsApp pattern has three groups, so it never passes the six-group check |
| Inference.Conventions | test.py:18-23 | the four patterns in the order they are tried: Pixel, camera and screenshot, each with six groups, then the WhatsApp pattern with three |
| Inference.ExtractFrom | test.py:24-29 | the loop returns no date exactly when no pattern both matches and has six groups; otherwise the first pattern that does gives the constructor's result for its groups |
| Inference.ExtractByConvention | test.py:24-29 | the pattern loop's result is decided by the first of the Pixel, camera and screenshot searches that succeeds; with none, no date; the WhatsApp entry never decides |
| Inference.ExtractDateFromTitle | test.py:9-29 | the function returns `None` exactly when none of the three timestamp layouts occurs in the name (both directions) |
| Inference.PixelNameYieldsItsDigits | test.py:19-28 | a name holding a `PXL_` timestamp yields the `datetime` (or the error) of its leftmost one |
| Inference.CameraNameYieldsItsDigits | test.py:20-28 | with no `PXL_` timestamp, the leftmost `IMG_` timestamp decides |
| Inference.ScreenshotNameYieldsItsDigits | test.py:21-28 | with neither earlier kind, the leftmost `Screenshot_` timestamp decides |
| Inference.WhatsAppPatternMatches | test.py:22-25 | `re.search` does match `IMG-20230615-WA0007.jpg` with the WhatsApp pattern, capturing only 2023, 6 and 15 |
| Inference.WhatsAppNameHasNoDate | test.py:22-29 | that WhatsApp name nevertheless gets no date |
| Inference.InvalidGroupsRaise | test.py:27-28 | 30 February raises the day error; month 13 raises the month error |
| Inference.AssembledStamp | test.py:19-21 | a name built from a tag, 8 digits, the separator and 6 digits holds that timestamp at its start, with fields read from the digit slices |
| Inference.PixelExampleFields | test.py:19 | `PXL_20230230_120000.jpg` holds a Pixel timestamp with fields 2023, 2, 30, 12, 0, 0 |
| Inference.CameraExampleFields | test.py:20 | `IMG_20231301_000000.jpg` holds a camera timestamp with fields 2023, 13, 1, 0, 0, 0 |
| Inference.CameraExampleNotPixel | test.py:19 | that camera name holds no Pixel timestamp |
| Inference.ImpossibleDayRaises | test.py:19-28 | `PXL_20230230_120000.jpg` raises the day error instead of returning `None` |
| Inference.ImpossibleMonthRaises | test.py:20-28 | `IMG_20231301_000000.jpg` raises the month error |
| Inference.EarlyYearAccepted | test.py:19-28 | `PXL_09990101_000000.jpg` yields the date 999-01-01 00:00:00: a year group with a leading zero gives a year below 1000 |
| Formats.Render | test.py:45 | the rendering is 19 characters of the layout `DDDD<sep>DD<sep>DD DD:DD:DD`, ASCII for an ASCII separator |
| Formats.FormatExif | test.py:45 | the EXIF rendering is 19 ASCII characters in the layout `DDDD:DD:DD DD:DD:DD` |
| Formats.FormatPng | test.py:64 | the PNG rendering is 19 ASCII characters in the layout `DDDD-DD-DD DD:DD:DD`, equal to the EXIF rendering except at its two date separators |
| Formats.ParseExif | test.py:41 | `strptime` raises "time data … does not match" carrying the text exactly when the pattern does not match at its start; "unconverted data remains" carrying the leftover when it matches a proper prefix; it succeeds only on a whole-text match, with the captured fields; on a whole-text match it gives the constructor's result for the captured fields, the time when they are valid and otherwise the constructor's error |
| Formats.Repr | test.py:41 | the `%r` of the mismatch message is the text between quotes, `"` when it holds `'` but no `"`; printable ASCII without `'` or `\` is quoted unchanged |
| Formats.DashedFieldsMismatch | test.py:41 | the stored value `2023-06-15 10:15:00` is refused with the message `time data '2023-06-15 10:15:00' does not match format '%Y:%m:%d %H:%M:%S'` |
| Formats.ScanOfRender | test.py:41-45 | the `strptime` pattern reads the six fields back from the EXIF rendering and ends at its last character |
| Formats.ParseFormatRoundTrip | test.py:41-45 | parsing the EXIF rendering of a time gives that same time back |
| Formats.FormatPngInjective | test.py:64-67 | two times with the same PNG rendering are the same time |
| Formats.ParseAcceptsShortFields | test.py:41 | `strptime` also accepts the stored value `2023:6:5 7:03:09` as 2023-06-05 07:03:09 |
| Writers.StoredOriginal | test.py:38-40 | a missing `DateTimeOriginal` reads as the empty (falsy) value; a non-empty stored date is the tag's value |
| Writers.Encode | test.py:45-47 | the encoded rendering has one byte per character, each with that character's code |
| Writers.Decode | test.py:41 | decoding succeeds exactly when every byte is ASCII, and keeps length and character codes |
| Writers.DecodeEncode | test.py:41-46 | decoding the encoded rendering gives it back |
| Writers.Save | test.py:50-52 | the save reports Updated exactly when it does not raise; only then is the metadata written; otherwise the failure carries the save's message |
| Writers.Stamped | test.py:45-47 | both date tags hold the encoded EXIF rendering; every other tag is unchanged; no tag is added besides the two |
| Writers.UpdateJpeg | test.py:32-54 | "Already matches" exactly when the stored `DateTimeOriginal` is non-empty, decodes and parses to the target time; something is saved exactly when the status is Updated, and then it is the loaded IFD with both date tags rewritten and no other change |
| Writers.JpegRewrites | test.py:40-52 | with a missing, empty or differing stored date, the file is saved with both tags rewritten unless saving raises, in which case nothing is written |
| Writers.JpegFailsOnUnreadableDate | test.py:40-54 | a stored date that does not decode or parse is reported as a failure with that cause, and nothing is saved |
| Writers.JpegFailsOnLoad | test.py:36-54 | if loading the EXIF raises, the failure carries the loader's message and nothing is saved |
| Writers.JpegAcceptsShortStoredDate | test.py:41-43 | a stored single-digit date meaning the target already matches |
| Writers.JpegSecondRunMatches | test.py:37-52 | after an update or a match, running the writer again reports "Already matches" and writes nothing |
| Writers.UpdatePng | test.py:57-77 | "Already matches" exactly when `Creation Time` exists and equals the target's PNG rendering; something is saved exactly when the status is Updated, and then it is a chunk set holding only `Creation Time`; if `Image.open` raises, the failure carries the loader's message and nothing is saved |
| Writers.PngRewrites | test.py:70-75 | otherwise the file is saved with a text-chunk set holding only `Creation Time`, unless saving raises |
| Writers.PngMatchesOneTime | test.py:64-68 | a PNG already matches at most one target time |
| Writers.PngSecondRunMatches | test.py:62-75 | after an update or a match, running the PNG writer again reports "Already matches" and writes nothing |
| Writers.WriteStatus.Text | test.py:43-54 | the three writer statuses have distinct first characters: ✅ exactly for "Already matches", 🛠 exactly for "Updated", ❌ exactly for a failure |
| Writers.FailureText | test.py:53-54 | every failure status is `❌ Failed: ` followed by the exception's message |
| Processor.Basename | test.py:85 | the base name is a suffix of the path, holds no `/`, and is the whole path or follows a `/` |
| Processor.BasenameOfJoin | test.py:85 | the base name of `dir/name` is `name`, so a timestamp in a folder name is never seen |
| Processor.NoDateWritesNothing | test.py:85-88 | with no date in the name, the status is "⚠️ No valid date in filename" and the file is unchanged |
| Processor.ProcessFile | test.py:80-97 | the worker raises exactly when the inference raised, with the constructor's message and the file unchanged; every returned pair carries the relative path; the file changes only when a date was found and a writer ran |
| Processor.KindOf | test.py:90-92 | JPEG exactly when the path ends in `.jpg` or `.jpeg` ignoring ASCII case; PNG exactly when it does not and ends in `.png` ignoring case |
| Processor.KindIgnoresCase | test.py:90-92 | the extension dispatch gives the same writer for the path and for its lower-cased form |
| Processor.UpperJpgExample | test.py:90 | `/photos/PXL_20230615_101500.JPG` goes to the JPEG writer |
| Processor.JpegExample | test.py:90 | `a/b.jpeg` goes to the JPEG writer |
| Processor.MixedPngExample | test.py:92 | `shot.Png` goes to the PNG writer |
| Processor.VideoExample | test.py:94 | `clip.mp4` goes to no writer |
| Processor.IsSuccessStatus | test.py:127 | a status counts as a success exactly when it holds ✅, or 🛠 followed by the variation selector U+FE0F |
| Processor.WriterStatusClassified | test.py:127 | "Already matches" and "Updated" count as successes; a failure counts as one exactly when the exception's message contains a marker |
| Processor.OwnStatusesFail | test.py:127 | the no-date and unsupported statuses are counted as failures |
| Processor.MarkedFailureCountsAsSuccess | test.py:127 | a failure whose message contains ✅ is counted as a success |
| Processor.StatusTextInjective | test.py:43-54 | a failure's status text is neither "Already matches" nor "Updated" |
| Processor.SecondRunMatches | test.py:80-97 | a file that was updated or already matched is found matching on the next run, with the same relative path, and is left alone |
| Batch.Entry | test.py:125-135 | a finished worker is a success exactly when its status contains a marker, else it is listed with its path and status; a worker that raised is listed with its path and "❌ Unexpected error: " and the message |
| Batch.Jobs | test.py:121 | one future per file, each running `process_file` on its own path and contents |
| Batch.Tally | test.py:113-136 | the loop's counter and list are the folds of the completions in completion order, and `successful + len(failed_images) == total_files` |
| Batch.ProcessImages | test.py:113-136 | the same for the submitted file list |
| Batch.TallyTotal | test.py:114-135 | each completion adds exactly one success or one failure |
| Batch.TallyAppend | test.py:123-135 | tallying two runs of completions one after the other adds their counts and concatenates their lists |
| Batch.OrderIrrelevant | test.py:123 | two completion orders of the same files give the same count and the same failures, up to order |
| Batch.AnyOrderAsSubmitted | test.py:123 | any completion order gives the count and failures of the submission order |
| Batch.FailureListed | test.py:130-135 | a failing completion's entry is in the failure list |
| Batch.ListedInAnyOrder | test.py:123-135 | in any completion order, every failing file is listed |
| Batch.ImpossibleDateListed | test.py:133-135 | a file with an impossible date in its name is listed as an unexpected error carrying the constructor's message, in any completion order |

## Left out

- The directory walk and its extension filter (test.py:104-111) are left out. The model
  starts from the list of gathered paths. `os.walk` is I/O, and the order of its listing is
  a property of the file system.
- `input`, every `print` and the `__main__` block stay outside the model since they are console I/O. So does the
  folder check with `os.path.isdir`, which is file-system I/O.
- The thread pool is not modelled. Its only visible effect is the completion order, which is
  a parameter: any permutation of the submitted files.
- `os.path.relpath` is passed in as each file's relative path. `piexif`, PIL and the
  encoding of images are abstracted as what loading returns and whether saving raises.
  After a successful save, the next load returns exactly what was saved. Pixel data is not
  modelled.
- Library exception texts are parameters. The text of the `UnicodeDecodeError` from
  `decode("utf-8")` is fixed in the model, not CPython's exact wording.
- Writers.Decode: `decode("utf-8")` is modelled on ASCII bytes only. Multi-byte UTF-8
  sequences are treated as undecodable, although Python decodes valid ones. Python's
  `strptime` reads `\d` as any Unicode decimal digit and `int()` converts such digits, so
  a stored date written with, say, fullwidth digits (`２０２３:06:15 10:1５:0５`) parses to
  an ordinary time: the file then already matches or is rewritten, as for its ASCII
  spelling. `strptime` compiles its pattern without `re.ASCII`, so the `\s+` it makes of
  the format's space also matches Unicode whitespace: a no-break space (U+00A0) or an
  ideographic space (U+3000) between date and time parses and matches or is rewritten in
  the same way. Any other decoded non-ASCII text is refused by `strptime` with a message
  that repeats the text; if that text holds ✅, the `❌ Failed` status holds it too, and the
  tally counts the file as a success. The model reports every such file as undecodable
  and counts a failure.
- Formats.Repr escapes backslashes, the quote and ASCII control characters. It prints every
  non-ASCII character unchanged, whereas Python escapes the non-printable ones. No text
  reaching it holds non-ASCII characters, since decoding is modelled on ASCII only.
- `\d`, `\s` and `str.lower()` are modelled on ASCII. Python also matches other Unicode
  digits and spaces, and lower-cases non-ASCII letters.
- `strftime("%Y")` for years below 1000 is platform-dependent and not modelled. The model
  pads to four digits. On Linux, where CPython hands `%Y` to glibc's `strftime`, the year
  999 is rendered `999`. A four-digit group with leading zeros, such as
  `PXL_09990101_000000.jpg`, does yield such a year (Inference.EarlyYearAccepted). Where `%Y` does not pad, the JPEG
  writer stores `999:01:01 00:00:00`. That text fails `strptime`'s `\d\d\d\d`, so every
  later run reports a failure. Formats.ParseFormatRoundTrip, Writers.JpegSecondRunMatches
  and Processor.SecondRunMatches therefore hold only where `%Y` pads to four digits.
- `image.info` values that are not strings, such as bytes or tuples, are not modelled. PNG
  text chunks are strings.
- EXIF values that are not bytes are not modelled: an EXIF IFD maps each tag to bytes.
  `piexif.load` returns a tuple or an integer for a `DateTimeOriginal` stored with a
  non-ASCII TIFF type. Then `.decode` raises, or a falsy `0` makes the writer rewrite both
  tags.
- Processor.Basename splits on `/` only, as POSIX `os.path.basename` does. On Windows,
  `ntpath` also splits on `\`, so Processor.BasenameOfJoin's statement that a timestamp in
  a folder name is never seen holds for POSIX paths only.
- Batch.TallyTotal, Batch.Tally and Batch.ProcessImages assume that `print` never raises.
  The `try` of test.py:125-136 also covers the prints at lines 129 and 132. If the print at
  line 129 raises, `successful` was already incremented and the `except` branch appends a
  failure too. If the print at line 132 raises, the failure was already appended and the
  `except` branch appends a second entry. A path holding a surrogate-escaped byte, printed
  to a strict UTF-8 standard output, is one way to make this happen. The print at line 136,
  outside the `try`, then aborts the batch.
- The `exif_dict["Exif"]` lookup is modelled as always succeeding, since `piexif.load`
  always returns that key. The model keeps only that IFD; the other IFDs `piexif.dump`
  preserves are not modelled.
- Inference.WhatsAppNameHasNoDate is stated for one WhatsApp name, not for every name of
  that shape. The general statement rests on WhatsAppGroupCount and ExtractByConvention.

## Proof steps

These lemmas unfold one step of a definition and carry no result of their own:

- Inference.GroupStep and Inference.LitStep: one capture group, or one literal, of a
  pattern matched at an index (the patterns at test.py:19-22). The matching lemmas above
  are proved with them.
- Processor.JpegDispatch, Processor.PngDispatch and Processor.OtherDispatch: the branch of
  `process_file` (test.py:90-95) taken for a dated file of each kind, spelled out one
  kind at a time.
