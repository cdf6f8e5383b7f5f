# Subtitle serialisers of the speech-to-text worker

The worker (`whisper-worker/app.py`) transcribes an uploaded audio file and can
return the result as a subtitle document. This project models the part that
writes those documents:

- `format_timestamp_srt` / `format_timestamp_vtt` split a time in seconds into
  hours, minutes, seconds and milliseconds and write them as `HH:MM:SS,mmm`
  (SubRip) or `HH:MM:SS.mmm` (WebVTT, section 4.1 "WebVTT file structure" of the
  W3C WebVTT specification).
- `generate_srt` loops over the transcription's segments and appends four lines
  per segment: the block number, counted from 1, then `start --> end`, the
  stripped text and an empty line. It then joins all lines with `"\n"`.
- `generate_vtt` starts from the lines `WEBVTT` and an empty line, and appends
  three lines per segment with no number. It then joins all lines the same way.

Files:

- `wrappers.dfy`: `Option`.
- `decimal.dfy`: Python's `f"{n}"` and `f"{n:0Wd}"` on non-negative
  integers, and the value a digit string denotes.
- `timestamp.dfy`: the field split over exact non-negative reals (`Fields`) and
  the two timestamp writers (`FormatSrt`, `FormatVtt`).
  - The writers compute values and carry no contract of their own. `FieldsSpec`,
    `FormatShape`, `ParseFormatSrt`, `ParseFormatVtt`, `FormatSrtInjective` and
    `VttIsSrtWithDot` state their properties.
  - `Parse` reads a timestamp back into whole milliseconds. The worker has no
    such reader; it is there only as the inverse the round trips
    `ParseFormatSrt` and `ParseFormatVtt` go through.
- `subtitles.dfy`:
  - segments, `str.strip()`, and `"\n".join` with its inverse `split("\n")`;
  - the specification functions `SrtLines` / `VttLines` (the line lists the
    loops build);
  - the methods `GenerateSrt` / `GenerateVtt`, whose loops are proved
    to build exactly those lists;
  - the line lists are defined for any timestamp writer and any text
    trimmer (`SrtLinesWith`, `VttCuesWith`). Layout lemmas are proved at
    that level, then applied to `FormatSrt`/`FormatVtt` and `Strip`.

Times are exact non-negative reals. Python's `//`, `%` and `int(...)` on a
non-negative float are `.Floor` and subtraction here.

## Model

| member | source | states |
|---|---|---|
| Timestamp.FieldsSpec | whisper-worker/app.py:213-216 | minutes < 60, seconds < 60 and milliseconds < 1000; hours unbounded; `hours*3600 + minutes*60 + secs` is the floor of the time; millis is the floor of the fractional part times 1000; the fields together count the time's whole milliseconds |
| Timestamp.FormatShape | whisper-worker/app.py:217 | the formatted time follows the timestamp grammar: hours padded to two digits (more when needed), `:`, two-digit minutes, `:`, two-digit seconds, the separator, three-digit milliseconds; each piece reads as its field |
| Timestamp.LayoutShape | whisper-worker/app.py:217 | the same layout facts for any clock whose minutes, seconds and milliseconds are in range |
| Timestamp.ParseFormatSrt | whisper-worker/app.py:211-217 | reading back a SubRip timestamp gives the time truncated to whole milliseconds |
| Timestamp.ParseFormatVtt | whisper-worker/app.py:219-225 | reading back a WebVTT timestamp gives the time truncated to whole milliseconds |
| Timestamp.FormatSrtInjective | whisper-worker/app.py:211-217 | two times get the same SubRip timestamp if and only if they fall in the same millisecond |
| Timestamp.FieldsDetermined | whisper-worker/app.py:213-216 | the four fields depend only on the whole-millisecond count of the time |
| Timestamp.ClockOfTotal | whisper-worker/app.py:213-216 | a clock with in-range minutes, seconds and milliseconds is recovered from its millisecond count by division and remainder |
| Timestamp.VttIsSrtWithDot | whisper-worker/app.py:211-225 | the WebVTT timestamp has the same length as the SubRip one and differs from it only by `.` in place of `,` before the milliseconds |
| Timestamp.FormatNoNewline | whisper-worker/app.py:217 | a formatted timestamp holds no line break |
| Timestamp.LayoutAlphabet | whisper-worker/app.py:217 | a laid-out timestamp consists only of digits, `:` and the separator |
| Decimal.Show | whisper-worker/app.py:188 | `f"{n}"` is a non-empty digit string with no leading zero unless n is 0 |
| Decimal.ShowValue | whisper-worker/app.py:188 | reading `f"{n}"` back as a decimal number gives n |
| Decimal.ZeroPad | whisper-worker/app.py:217 | `f"{n:0Wd}"` is all digits, of length W or the length of `f"{n}"` if that is longer, and reads back as n |
| Decimal.ValueLeadingZeros | whisper-worker/app.py:217 | leading zeros do not change the value of a digit string |
| Decimal.ShowLength | whisper-worker/app.py:217 | a number below 10^k takes at most k digits, so padding minutes and seconds to 2 and millis to 3 gives exactly that width |
| Subtitles.SegmentsOf | whisper-worker/app.py:180 | a missing `segments` entry reads as the empty list; a present one is used as it is |
| Subtitles.StripLeft | whisper-worker/app.py:186 | the result is a suffix of the input, everything removed is whitespace, and it does not start with whitespace |
| Subtitles.StripRight | whisper-worker/app.py:186 | the result is a prefix of the input, everything removed is whitespace, and it does not end with whitespace |
| Subtitles.Strip | whisper-worker/app.py:186 | `text.strip()` neither starts nor ends with whitespace, holds only characters of the text, and leaves a text with no whitespace unchanged |
| Subtitles.StripRemovesOnlyEnds | whisper-worker/app.py:186 | `text.strip()` is a contiguous piece `s[i..j]` of the text, and everything before i and from j on is whitespace, so nothing else is removed |
| Subtitles.StripIdempotent | whisper-worker/app.py:203 | stripping a stripped text changes nothing |
| Subtitles.JoinLines | whisper-worker/app.py:193 | `"\n".join` of no lines is the empty string, and of one line is that line |
| Subtitles.SplitJoin | whisper-worker/app.py:193 | splitting a join at line breaks gives the lines back when no line holds a line break |
| Subtitles.GenerateSrt | whisper-worker/app.py:178-193 | the loop's list is the SubRip line list of the segments, and the document is that list joined by `"\n"` |
| Subtitles.SrtLinesShape | whisper-worker/app.py:181-191 | exactly four lines per segment, in input order: the number k+1, `start --> end` with SubRip timestamps, the stripped text, an empty line |
| Subtitles.SrtNumbering | whisper-worker/app.py:183-188 | the k-th block's first line is a digit string reading k+1, so the numbers are consecutive from 1 |
| Subtitles.SrtEmpty | whisper-worker/app.py:180-193 | no segments, or no `segments` entry, gives the empty document |
| Subtitles.SrtDocumentLines | whisper-worker/app.py:178-193 | when no stripped segment text holds a line break, splitting the SubRip document at line breaks gives back exactly the four lines per segment |
| Subtitles.GenerateVtt | whisper-worker/app.py:195-209 | the loop's list is the WebVTT line list of the segments, and the document is that list joined by `"\n"` |
| Subtitles.VttLinesShape | whisper-worker/app.py:198-207 | `WEBVTT` and an empty line, then exactly three lines per segment in input order: `start --> end` with WebVTT timestamps, the stripped text, an empty line; no number |
| Subtitles.VttEmpty | whisper-worker/app.py:197-209 | no segments, or no `segments` entry, gives `"WEBVTT\n"` |
| Subtitles.VttDocumentLines | whisper-worker/app.py:195-209 | when no stripped segment text holds a line break, splitting the WebVTT document at line breaks gives back exactly the signature lines and the three lines per segment |

## Left out

- The HTTP endpoints `/health` and `/transcribe` are not modelled. They are request handling, upload checks and temporary-file I/O.
- Model loading and `model.transcribe` are not modelled. They are calls into the speech-recognition library; its result enters the model as a `Transcription` value.
- The idle-shutdown timer and the process start-up and signal handling are not modelled. They are threads, timers and process lifecycle.
- Timestamp.Fields: works on exact reals, not IEEE-754 doubles. A float can truncate one millisecond lower: for 2.3 s, `2.3 % 1` times 1000 is just below 300, so the code writes 299 ms. That rounding is not modelled.
- Timestamp.FormatSrt: requires a non-negative time. For a negative time the code writes a negative hours field with minutes and seconds wrapped into range (-0.5 s gives `-1:59:59,500`); that output is not modelled. The same holds for Timestamp.FormatVtt.
- Timestamp.FormatSrt and Timestamp.FormatVtt carry no `ensures` of their own. Their properties are stated by the lemmas in the table above.
- Subtitles.Strip: removes six of the characters Python's `str.strip()` removes: space, tab, line feed, carriage return, vertical tab and form feed. The separators U+001C to U+001F and the non-ASCII whitespace are not removed.
- Segment fields are required by the datatype. The `KeyError` that the code raises when a segment lacks `start`, `end` or `text` is not modelled.
- Subtitles.SrtDocumentLines: requires at least one segment. With none the document is empty, and `"".split("\n")` gives one empty line rather than no lines.
- Subtitles.VttDocumentLines: requires stripped segment texts without line breaks. A text with a line break inside it makes the document hold more lines than the loop appended. Subtitles.SrtDocumentLines has the same requirement.
