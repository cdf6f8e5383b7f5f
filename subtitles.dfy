/** The two subtitle serialisers of the speech-to-text worker: a transcription
    result becomes a SubRip document (numbered blocks) or a WebVTT document
    (a WEBVTT signature, then cues without numbers). Each is a loop that appends
    lines to a list, followed by one "\n".join of that list. */
module Subtitles {
  import opened Wrappers
  import opened Decimal
  import opened Timestamp

  /** One transcribed segment: start and end times in seconds and its text. */
  datatype Segment = Segment(start: real, end: real, text: string)

  /** The part of the engine's result the serialisers read: the "segments"
      entry, which may be absent. */
  datatype Transcription = Transcription(segments: Option<seq<Segment>>)

  /** result.get("segments", []) */
  function SegmentsOf(result: Transcription): (segs: seq<Segment>)
    ensures result.segments.None? ==> segs == []
    ensures result.segments.Some? ==> segs == result.segments.value
  {
    result.segments.GetOr([])
  }

  /** Times come from the engine as non-negative quantities. */
  predicate TimesNonNegative(segs: seq<Segment>) {
    forall i :: 0 <= i < |segs| ==> segs[i].start >= 0.0 && segs[i].end >= 0.0
  }

  // ---------------------------------------------------------------- strip

  /** Six of the characters str.strip() removes: space, tab, line feed, carriage
      return, vertical tab and form feed. The separators U+001C to U+001F and
      the non-ASCII whitespace are not included. */
  predicate IsSpace(c: char) {
    c == ' ' || c == '\t' || c == '\n' || c == '\r' || c == '\U{B}' || c == '\U{C}'
  }

  /** Drops the leading whitespace: what is left is a suffix of s that does not
      start with whitespace, and everything dropped was whitespace. */
  function StripLeft(s: string): (r: string)
    ensures |r| <= |s| && r == s[|s| - |r|..]
    ensures forall k :: 0 <= k < |s| - |r| ==> IsSpace(s[k])
    ensures r == [] || !IsSpace(r[0])
  {
    if s != [] && IsSpace(s[0]) then StripLeft(s[1..]) else s
  }

  /** Drops the trailing whitespace: what is left is a prefix of s that does not
      end with whitespace, and everything dropped was whitespace. */
  function StripRight(s: string): (r: string)
    ensures |r| <= |s| && r == s[..|r|]
    ensures forall k :: |r| <= k < |s| ==> IsSpace(s[k])
    ensures r == [] || !IsSpace(r[|r| - 1])
  {
    if s != [] && IsSpace(s[|s| - 1]) then StripRight(s[..|s| - 1]) else s
  }

  /** str.strip(): a contiguous piece of s, neither starting nor ending with
      whitespace, obtained by removing whitespace only. */
  function Strip(s: string): (r: string)
    ensures r == [] || (!IsSpace(r[0]) && !IsSpace(r[|r| - 1]))
    ensures forall c :: c in r ==> c in s
    ensures (forall k :: 0 <= k < |s| ==> !IsSpace(s[k])) ==> r == s
  {
    var l := StripLeft(s);
    var r := StripRight(l);
    assert forall c :: c in r ==> c in l;
    r
  }

  predicate AllSpace(t: string) {
    forall k :: 0 <= k < |t| ==> IsSpace(t[k])
  }

  /** str.strip() removes whitespace at the two ends and nothing else: the
      result is the piece s[i..j] of s, and s[..i] and s[j..] are whitespace. */
  lemma StripRemovesOnlyEnds(s: string)
    ensures exists i, j :: 0 <= i <= j <= |s| && AllSpace(s[..i]) && AllSpace(s[j..]) && Strip(s) == s[i..j]
  {
    var l := StripLeft(s);
    var r := StripRight(l);
    var i := |s| - |l|;
    var j := i + |r|;
    assert AllSpace(s[..i]);
    assert AllSpace(s[j..]) by {
      forall k | 0 <= k < |s| - j
        ensures IsSpace(s[j..][k])
      {
        assert s[j..][k] == l[|r| + k];
      }
    }
    assert Strip(s) == s[i..j] by {
      assert l == s[i..];
      assert r == l[..|r|];
    }
  }

  /** Stripping twice is stripping once. */
  lemma StripIdempotent(s: string)
    ensures Strip(Strip(s)) == Strip(s)
  {
    var r := Strip(s);
    assert StripLeft(r) == r;
    assert StripRight(r) == r;
  }

  // ---------------------------------------------------------- join / split

  /** "\n".join(lines) */
  function JoinLines(lines: seq<string>): (doc: string)
    ensures lines == [] ==> doc == ""
    ensures |lines| == 1 ==> doc == lines[0]
  {
    if lines == [] then ""
    else if |lines| == 1 then lines[0]
    else lines[0] + "\n" + JoinLines(lines[1..])
  }

  /** Index of the first newline in s, or |s| when there is none. */
  function FirstNewline(s: string): (i: nat)
    ensures i <= |s|
    ensures forall k :: 0 <= k < i ==> s[k] != '\n'
    ensures i < |s| ==> s[i] == '\n'
  {
    if s == [] then 0
    else if s[0] == '\n' then 0
    else 1 + FirstNewline(s[1..])
  }

  /** doc.split("\n"): the pieces between newlines; never empty. */
  function SplitLines(doc: string): (lines: seq<string>)
    ensures |lines| >= 1
    decreases |doc|
  {
    var i := FirstNewline(doc);
    if i == |doc| then [doc] else [doc[..i]] + SplitLines(doc[i + 1..])
  }

  predicate NoNewline(s: string) {
    '\n' !in s
  }

  /** Splitting a join at newlines gives the lines back, when no line holds a
      newline of its own. */
  lemma {:induction false} SplitJoin(lines: seq<string>)
    requires |lines| >= 1
    requires SingleLines(lines)
    ensures SplitLines(JoinLines(lines)) == lines
  {
    var doc := JoinLines(lines);
    var first := lines[0];
    assert FirstNewline(first) == |first| by { NoNewlineIndex(first); }
    if |lines| == 1 {
      assert doc == first;
    } else {
      var rest := JoinLines(lines[1..]);
      assert doc == first + "\n" + rest;
      PrefixNewline(first, rest);
      assert doc[..|first|] == first;
      assert doc[|first| + 1..] == rest;
      SplitJoin(lines[1..]);
      assert lines == [first] + lines[1..];
    }
  }

  lemma {:induction false} NoNewlineIndex(s: string)
    requires NoNewline(s)
    ensures FirstNewline(s) == |s|
  {
    if s != [] {
      assert s[0] in s;
      assert forall c :: c in s[1..] ==> c in s;
      NoNewlineIndex(s[1..]);
    }
  }

  lemma {:induction false} PrefixNewline(first: string, rest: string)
    requires NoNewline(first)
    ensures FirstNewline(first + "\n" + rest) == |first|
  {
    var doc := first + "\n" + rest;
    if first != [] {
      assert first[0] in first;
      assert forall c :: c in first[1..] ==> c in first;
      assert doc[1..] == first[1..] + "\n" + rest;
      PrefixNewline(first[1..], rest);
    }
  }

  /** Appending one element at a time is appending them all at once. */
  lemma AppendFour<T>(s: seq<T>, a: T, b: T, c: T, d: T)
    ensures s + [a] + [b] + [c] + [d] == s + [a, b, c, d]
  {
  }

  lemma AppendThree<T>(s: seq<T>, a: T, b: T, c: T)
    ensures s + [a] + [b] + [c] == s + [a, b, c]
  {
  }

  /** Element i of header + rest is element j of rest, for i two past j. */
  lemma AfterHeader<T>(header: seq<T>, rest: seq<T>, i: nat, j: nat)
    requires |header| == 2 && i == j + 2 && j < |rest|
    ensures (header + rest)[i] == rest[j]
  {
  }

  lemma AppendAssoc<T>(a: seq<T>, b: seq<T>, c: seq<T>)
    ensures a + (b + c) == a + b + c
  {
  }


  // ------------------------------------------------------------ cue lines

  /** A timestamp writer: format_timestamp_srt or format_timestamp_vtt. The
      document layouts below are stated for any writer and any trimmer, so that
      their proofs do not depend on how a timestamp is spelled or how a text is
      trimmed. */
  type Writer = real --> string

  /** A text trimmer: str.strip(). */
  type Trimmer = string -> string

  /** Every time of every segment is one the writer accepts. */
  ghost predicate Writable(segs: seq<Segment>, stamp: Writer) {
    forall i :: 0 <= i < |segs| ==> stamp.requires(segs[i].start) && stamp.requires(segs[i].end)
  }

  lemma WritableFormats(segs: seq<Segment>)
    requires TimesNonNegative(segs)
    ensures Writable(segs, FormatSrt) && Writable(segs, FormatVtt)
  {
  }

  /** The line "start --> end". */
  function CueTiming(start: string, end: string): string {
    start + " --> " + end
  }

  /** The three lines both formats write for a segment: the timing line, the
      stripped text and an empty line. */
  function CueLines(seg: Segment, stamp: Writer, trim: Trimmer): seq<string>
    requires stamp.requires(seg.start) && stamp.requires(seg.end)
  {
    [CueTiming(stamp(seg.start), stamp(seg.end)), trim(seg.text), ""]
  }

  lemma CueLinesLines(seg: Segment, stamp: Writer, trim: Trimmer)
    requires stamp.requires(seg.start) && stamp.requires(seg.end)
    ensures var c := CueLines(seg, stamp, trim);
            |c| == 3 && c[0] == CueTiming(stamp(seg.start), stamp(seg.end)) && c[1] == trim(seg.text) && c[2] == ""
  {
  }

  // ---------------------------------------------------------------- SubRip

  /** The four lines the loop appends for the segment numbered index. */
  function SrtBlock(index: nat, seg: Segment, stamp: Writer, trim: Trimmer): seq<string>
    requires stamp.requires(seg.start) && stamp.requires(seg.end)
  {
    [Show(index), CueTiming(stamp(seg.start), stamp(seg.end)), trim(seg.text), ""]
  }

  lemma SrtBlockLines(index: nat, seg: Segment, stamp: Writer, trim: Trimmer)
    requires stamp.requires(seg.start) && stamp.requires(seg.end)
    ensures var b := SrtBlock(index, seg, stamp, trim);
            |b| == 4 && b[0] == Show(index) && b[1] == CueTiming(stamp(seg.start), stamp(seg.end)) &&
            b[2] == trim(seg.text) && b[3] == ""
  {
  }

  /** srt_lines after the loop has visited segs, numbering them from 1: each
      segment adds its number and then its cue lines. */
  function SrtLinesWith(segs: seq<Segment>, stamp: Writer, trim: Trimmer): seq<string>
    requires Writable(segs, stamp)
  {
    if segs == [] then []
    else SrtLinesWith(segs[..|segs| - 1], stamp, trim) + SrtBlock(|segs|, segs[|segs| - 1], stamp, trim)
  }

  /** The SubRip lines, with format_timestamp_srt as the writer. */
  function SrtLines(segs: seq<Segment>): seq<string>
    requires TimesNonNegative(segs)
  {
    WritableFormats(segs);
    SrtLinesWith(segs, FormatSrt, Strip)
  }

  /** One more loop iteration appends the next block. */
  lemma SrtLinesStep(segs: seq<Segment>, stamp: Writer, trim: Trimmer, i: nat, lines: seq<string>)
    requires Writable(segs, stamp) && i < |segs|
    requires lines == SrtLinesWith(segs[..i], stamp, trim) +
                      [Show(i + 1), stamp(segs[i].start) + " --> " + stamp(segs[i].end), trim(segs[i].text), ""]
    ensures lines == SrtLinesWith(segs[..i + 1], stamp, trim)
  {
    var prefix := segs[..i + 1];
    assert prefix[..i] == segs[..i] && prefix[i] == segs[i];
  }

  /** generate_srt */
  method GenerateSrt(result: Transcription) returns (doc: string)
    requires TimesNonNegative(SegmentsOf(result))
    ensures doc == JoinLines(SrtLines(SegmentsOf(result)))
  {
    var segments := SegmentsOf(result);
    WritableFormats(segments);
    var srtLines: seq<string> := [];
    var i := 0;
    while i < |segments|
      invariant 0 <= i <= |segments|
      invariant srtLines == SrtLinesWith(segments[..i], FormatSrt, Strip)
    {
      var segment := segments[i];
      var startTime := FormatSrt(segment.start);
      var endTime := FormatSrt(segment.end);
      var text := Strip(segment.text);
      ghost var before := srtLines;
      srtLines := srtLines + [Show(i + 1)];
      srtLines := srtLines + [startTime + " --> " + endTime];
      srtLines := srtLines + [text];
      srtLines := srtLines + [""];
      AppendFour(before, Show(i + 1), startTime + " --> " + endTime, text, "");
      SrtLinesStep(segments, FormatSrt, Strip, i, srtLines);
      i := i + 1;
    }
    assert segments[..i] == segments;
    doc := JoinLines(srtLines);
  }

  lemma {:induction false} SrtLinesLength(segs: seq<Segment>, stamp: Writer, trim: Trimmer)
    requires Writable(segs, stamp)
    ensures |SrtLinesWith(segs, stamp, trim)| == 4 * |segs|
  {
    if segs != [] {
      SrtLinesLength(segs[..|segs| - 1], stamp, trim);
    }
  }

  /** Line j of the k-th segment's block is line 4k + j of the list. */
  lemma {:induction false} SrtLineAt(segs: seq<Segment>, stamp: Writer, trim: Trimmer, k: nat, j: nat)
    requires Writable(segs, stamp) && k < |segs| && j < 4
    ensures |SrtLinesWith(segs, stamp, trim)| == 4 * |segs|
    ensures SrtLinesWith(segs, stamp, trim)[4 * k + j] == SrtBlock(k + 1, segs[k], stamp, trim)[j]
  {
    SrtLinesLength(segs, stamp, trim);
    var init := segs[..|segs| - 1];
    SrtLinesLength(init, stamp, trim);
    if k < |init| {
      SrtLineAt(init, stamp, trim, k, j);
      assert init[k] == segs[k];
    }
  }

  /** The k-th block, for any writer and trimmer. */
  lemma SrtBlockWith(segs: seq<Segment>, stamp: Writer, trim: Trimmer, k: nat)
    requires Writable(segs, stamp) && k < |segs|
    ensures var lines := SrtLinesWith(segs, stamp, trim);
            |lines| == 4 * |segs| &&
            lines[4 * k] == Show(k + 1) &&
            lines[4 * k + 1] == CueTiming(stamp(segs[k].start), stamp(segs[k].end)) &&
            lines[4 * k + 2] == trim(segs[k].text) &&
            lines[4 * k + 3] == ""
  {
    SrtLineAt(segs, stamp, trim, k, 0);
    SrtLineAt(segs, stamp, trim, k, 1);
    SrtLineAt(segs, stamp, trim, k, 2);
    SrtLineAt(segs, stamp, trim, k, 3);
    SrtBlockLines(k + 1, segs[k], stamp, trim);
  }

  /** The lines of the k-th block: the number k + 1, the timing line, the
      stripped text and an empty line. */
  lemma SrtBlockAt(segs: seq<Segment>, k: nat)
    requires TimesNonNegative(segs) && k < |segs|
    ensures |SrtLines(segs)| == 4 * |segs|
    ensures SrtLines(segs)[4 * k] == Show(k + 1)
    ensures SrtLines(segs)[4 * k + 1] == CueTiming(FormatSrt(segs[k].start), FormatSrt(segs[k].end))
    ensures SrtLines(segs)[4 * k + 2] == Strip(segs[k].text)
    ensures SrtLines(segs)[4 * k + 3] == ""
  {
    WritableFormats(segs);
    SrtBlockWith(segs, FormatSrt, Strip, k);
  }

  /** Four lines per segment, in input order: the number k + 1, the timing
      line, the stripped text and an empty line. */
  lemma SrtLinesShape(segs: seq<Segment>)
    requires TimesNonNegative(segs)
    ensures |SrtLines(segs)| == 4 * |segs|
    ensures forall k :: 0 <= k < |segs| ==>
              SrtLines(segs)[4 * k] == Show(k + 1) &&
              SrtLines(segs)[4 * k + 1] == CueTiming(FormatSrt(segs[k].start), FormatSrt(segs[k].end)) &&
              SrtLines(segs)[4 * k + 2] == Strip(segs[k].text) &&
              SrtLines(segs)[4 * k + 3] == ""
  {
    WritableFormats(segs);
    SrtLinesLength(segs, FormatSrt, Strip);
    forall k | 0 <= k < |segs|
      ensures SrtLines(segs)[4 * k] == Show(k + 1)
      ensures SrtLines(segs)[4 * k + 1] == CueTiming(FormatSrt(segs[k].start), FormatSrt(segs[k].end))
      ensures SrtLines(segs)[4 * k + 2] == Strip(segs[k].text)
      ensures SrtLines(segs)[4 * k + 3] == ""
    {
      SrtBlockAt(segs, k);
    }
  }

  /** The block numbers are consecutive from 1: the k-th block's first line
      reads as k + 1. */
  lemma SrtNumbering(segs: seq<Segment>, k: nat)
    requires TimesNonNegative(segs) && k < |segs|
    ensures |SrtLines(segs)| == 4 * |segs|
    ensures AllDigits(SrtLines(segs)[4 * k]) && Value(SrtLines(segs)[4 * k]) == k + 1
  {
    SrtLinesShape(segs);
    ShowValue(k + 1);
  }

  /** No segments, or no "segments" entry at all, gives the empty document. */
  lemma SrtEmpty(result: Transcription)
    requires SegmentsOf(result) == []
    ensures JoinLines(SrtLines(SegmentsOf(result))) == ""
  {
  }

  // ---------------------------------------------------------------- WebVTT

  /** The cue lines appended after the signature for segs. */
  function VttCuesWith(segs: seq<Segment>, stamp: Writer, trim: Trimmer): seq<string>
    requires Writable(segs, stamp)
  {
    if segs == [] then []
    else VttCuesWith(segs[..|segs| - 1], stamp, trim) + CueLines(segs[|segs| - 1], stamp, trim)
  }

  /** vtt_lines after the loop: the signature, an empty line, then the cues
      written with format_timestamp_vtt. */
  function VttLines(segs: seq<Segment>): seq<string>
    requires TimesNonNegative(segs)
  {
    WritableFormats(segs);
    ["WEBVTT", ""] + VttCuesWith(segs, FormatVtt, Strip)
  }

  /** One more loop iteration appends the next cue. */
  lemma VttCuesStep(segs: seq<Segment>, stamp: Writer, trim: Trimmer, i: nat, lines: seq<string>)
    requires Writable(segs, stamp) && i < |segs|
    requires lines == ["WEBVTT", ""] + VttCuesWith(segs[..i], stamp, trim) +
                      [stamp(segs[i].start) + " --> " + stamp(segs[i].end), trim(segs[i].text), ""]
    ensures lines == ["WEBVTT", ""] + VttCuesWith(segs[..i + 1], stamp, trim)
  {
    var prefix := segs[..i + 1];
    assert prefix[..i] == segs[..i] && prefix[i] == segs[i];
    var cues := VttCuesWith(segs[..i], stamp, trim);
    var cue := CueLines(segs[i], stamp, trim);
    assert VttCuesWith(prefix, stamp, trim) == cues + cue;
    AppendAssoc(["WEBVTT", ""], cues, cue);
  }

  /** generate_vtt */
  method GenerateVtt(result: Transcription) returns (doc: string)
    requires TimesNonNegative(SegmentsOf(result))
    ensures doc == JoinLines(VttLines(SegmentsOf(result)))
  {
    var segments := SegmentsOf(result);
    WritableFormats(segments);
    var vttLines: seq<string> := ["WEBVTT", ""];
    var i := 0;
    while i < |segments|
      invariant 0 <= i <= |segments|
      invariant vttLines == ["WEBVTT", ""] + VttCuesWith(segments[..i], FormatVtt, Strip)
    {
      var segment := segments[i];
      var startTime := FormatVtt(segment.start);
      var endTime := FormatVtt(segment.end);
      var text := Strip(segment.text);
      ghost var before := vttLines;
      vttLines := vttLines + [startTime + " --> " + endTime];
      vttLines := vttLines + [text];
      vttLines := vttLines + [""];
      AppendThree(before, startTime + " --> " + endTime, text, "");
      VttCuesStep(segments, FormatVtt, Strip, i, vttLines);
      i := i + 1;
    }
    assert segments[..i] == segments;
    doc := JoinLines(vttLines);
  }

  lemma {:induction false} VttCuesLength(segs: seq<Segment>, stamp: Writer, trim: Trimmer)
    requires Writable(segs, stamp)
    ensures |VttCuesWith(segs, stamp, trim)| == 3 * |segs|
  {
    if segs != [] {
      VttCuesLength(segs[..|segs| - 1], stamp, trim);
    }
  }

  /** The k-th segment's cue sits at cue lines 3k to 3k + 2. */
  lemma {:induction false} VttCueLineAt(segs: seq<Segment>, stamp: Writer, trim: Trimmer, k: nat, j: nat)
    requires Writable(segs, stamp) && k < |segs| && j < 3
    ensures |VttCuesWith(segs, stamp, trim)| == 3 * |segs|
    ensures VttCuesWith(segs, stamp, trim)[3 * k + j] == CueLines(segs[k], stamp, trim)[j]
  {
    VttCuesLength(segs, stamp, trim);
    var init := segs[..|segs| - 1];
    VttCuesLength(init, stamp, trim);
    if k < |init| {
      VttCueLineAt(init, stamp, trim, k, j);
      assert init[k] == segs[k];
    }
  }

  /** The k-th cue, after the two header lines, for any writer and trimmer. */
  lemma VttCueWith(segs: seq<Segment>, stamp: Writer, trim: Trimmer, k: nat)
    requires Writable(segs, stamp) && k < |segs|
    ensures var lines := ["WEBVTT", ""] + VttCuesWith(segs, stamp, trim);
            |lines| == 2 + 3 * |segs| &&
            lines[2 + 3 * k] == CueTiming(stamp(segs[k].start), stamp(segs[k].end)) &&
            lines[3 + 3 * k] == trim(segs[k].text) &&
            lines[4 + 3 * k] == ""
  {
    var cues := VttCuesWith(segs, stamp, trim);
    VttCueLineAt(segs, stamp, trim, k, 0);
    VttCueLineAt(segs, stamp, trim, k, 1);
    VttCueLineAt(segs, stamp, trim, k, 2);
    CueLinesLines(segs[k], stamp, trim);
    AfterHeader(["WEBVTT", ""], cues, 2 + 3 * k, 3 * k);
    AfterHeader(["WEBVTT", ""], cues, 3 + 3 * k, 3 * k + 1);
    AfterHeader(["WEBVTT", ""], cues, 4 + 3 * k, 3 * k + 2);
  }

  /** The lines of the k-th cue, after the two header lines. */
  lemma VttCueAt(segs: seq<Segment>, k: nat)
    requires TimesNonNegative(segs) && k < |segs|
    ensures |VttLines(segs)| == 2 + 3 * |segs|
    ensures VttLines(segs)[2 + 3 * k] == CueTiming(FormatVtt(segs[k].start), FormatVtt(segs[k].end))
    ensures VttLines(segs)[3 + 3 * k] == Strip(segs[k].text)
    ensures VttLines(segs)[4 + 3 * k] == ""
  {
    WritableFormats(segs);
    VttCueWith(segs, FormatVtt, Strip, k);
  }

  /** The signature and an empty line, then three lines per segment in input
      order: the timing line, the stripped text and an empty line; no number. */
  lemma VttLinesShape(segs: seq<Segment>)
    requires TimesNonNegative(segs)
    ensures |VttLines(segs)| == 2 + 3 * |segs|
    ensures VttLines(segs)[0] == "WEBVTT" && VttLines(segs)[1] == ""
    ensures forall k :: 0 <= k < |segs| ==>
              VttLines(segs)[2 + 3 * k] == CueTiming(FormatVtt(segs[k].start), FormatVtt(segs[k].end)) &&
              VttLines(segs)[3 + 3 * k] == Strip(segs[k].text) &&
              VttLines(segs)[4 + 3 * k] == ""
  {
    WritableFormats(segs);
    VttCuesLength(segs, FormatVtt, Strip);
    forall k | 0 <= k < |segs|
      ensures VttLines(segs)[2 + 3 * k] == CueTiming(FormatVtt(segs[k].start), FormatVtt(segs[k].end))
      ensures VttLines(segs)[3 + 3 * k] == Strip(segs[k].text)
      ensures VttLines(segs)[4 + 3 * k] == ""
    {
      VttCueAt(segs, k);
    }
  }

  /** No segments, or no "segments" entry at all, gives "WEBVTT\n". */
  lemma VttEmpty(result: Transcription)
    requires SegmentsOf(result) == []
    ensures JoinLines(VttLines(SegmentsOf(result))) == "WEBVTT\n"
  {
    assert VttLines([]) == ["WEBVTT", ""];
  }

  // ------------------------------------------------------ whole documents

  /** No line of the list holds a line break. */
  predicate SingleLines(lines: seq<string>) {
    forall j :: 0 <= j < |lines| ==> NoNewline(lines[j])
  }

  lemma SingleLinesConcat(a: seq<string>, b: seq<string>)
    requires SingleLines(a) && SingleLines(b)
    ensures SingleLines(a + b)
  {
  }

  /** The times of the segments are written without line breaks, and the
      stripped texts hold none. */
  ghost predicate SingleLineCues(segs: seq<Segment>, stamp: Writer, trim: Trimmer)
    requires Writable(segs, stamp)
  {
    forall i :: 0 <= i < |segs| ==>
      NoNewline(stamp(segs[i].start)) && NoNewline(stamp(segs[i].end)) && NoNewline(trim(segs[i].text))
  }

  /** Every line of the SubRip lines is free of line breaks when every
      timestamp and every text is. */
  lemma {:induction false} SrtLinesNoNewline(segs: seq<Segment>, stamp: Writer, trim: Trimmer)
    requires Writable(segs, stamp) && SingleLineCues(segs, stamp, trim)
    ensures SingleLines(SrtLinesWith(segs, stamp, trim))
  {
    if segs != [] {
      var init, seg := segs[..|segs| - 1], segs[|segs| - 1];
      SrtLinesNoNewline(init, stamp, trim);
      DigitsExclude(Show(|segs|), '\n');
      CueLinesNoNewline(seg, stamp, trim);
      SingleLinesConcat(SrtLinesWith(init, stamp, trim), SrtBlock(|segs|, seg, stamp, trim));
    }
  }

  /** Every cue line is free of line breaks when the timestamps and the text are. */
  lemma {:induction false} VttCuesNoNewline(segs: seq<Segment>, stamp: Writer, trim: Trimmer)
    requires Writable(segs, stamp) && SingleLineCues(segs, stamp, trim)
    ensures SingleLines(VttCuesWith(segs, stamp, trim))
  {
    if segs != [] {
      var init, seg := segs[..|segs| - 1], segs[|segs| - 1];
      VttCuesNoNewline(init, stamp, trim);
      CueLinesNoNewline(seg, stamp, trim);
      SingleLinesConcat(VttCuesWith(init, stamp, trim), CueLines(seg, stamp, trim));
    }
  }

  lemma CueLinesNoNewline(seg: Segment, stamp: Writer, trim: Trimmer)
    requires stamp.requires(seg.start) && stamp.requires(seg.end)
    requires NoNewline(stamp(seg.start)) && NoNewline(stamp(seg.end)) && NoNewline(trim(seg.text))
    ensures NoNewline(CueTiming(stamp(seg.start), stamp(seg.end))) && NoNewline(trim(seg.text))
  {
  }

  /** The stripped texts of the segments hold no line break. */
  predicate SingleLineTexts(segs: seq<Segment>) {
    forall i :: 0 <= i < |segs| ==> NoNewline(Strip(segs[i].text))
  }

  /** With the worker's writers, only the texts can bring a line break: the
      timestamps never do. */
  lemma CuesSingleLine(segs: seq<Segment>)
    requires TimesNonNegative(segs) && SingleLineTexts(segs)
    ensures Writable(segs, FormatSrt) && SingleLineCues(segs, FormatSrt, Strip)
    ensures Writable(segs, FormatVtt) && SingleLineCues(segs, FormatVtt, Strip)
  {
    WritableFormats(segs);
    forall i | 0 <= i < |segs|
      ensures NoNewline(FormatSrt(segs[i].start)) && NoNewline(FormatSrt(segs[i].end))
      ensures NoNewline(FormatVtt(segs[i].start)) && NoNewline(FormatVtt(segs[i].end))
    {
      FormatNoNewline(segs[i].start, ',');
      FormatNoNewline(segs[i].end, ',');
      FormatNoNewline(segs[i].start, '.');
      FormatNoNewline(segs[i].end, '.');
    }
  }

  lemma SrtDocumentWith(segs: seq<Segment>, stamp: Writer, trim: Trimmer)
    requires Writable(segs, stamp) && SingleLineCues(segs, stamp, trim) && segs != []
    ensures SplitLines(JoinLines(SrtLinesWith(segs, stamp, trim))) == SrtLinesWith(segs, stamp, trim)
  {
    SrtLinesNoNewline(segs, stamp, trim);
    SrtLinesLength(segs, stamp, trim);
    SplitJoin(SrtLinesWith(segs, stamp, trim));
  }

  lemma VttDocumentWith(segs: seq<Segment>, stamp: Writer, trim: Trimmer)
    requires Writable(segs, stamp) && SingleLineCues(segs, stamp, trim)
    ensures var lines := ["WEBVTT", ""] + VttCuesWith(segs, stamp, trim);
            SplitLines(JoinLines(lines)) == lines
  {
    var cues := VttCuesWith(segs, stamp, trim);
    VttCuesNoNewline(segs, stamp, trim);
    SingleLinesConcat(["WEBVTT", ""], cues);
    SplitJoin(["WEBVTT", ""] + cues);
  }

  /** Reading a SubRip document back line by line gives exactly the lines
      generate_srt joined, as long as no stripped segment text holds a line break. */
  lemma SrtDocumentLines(segs: seq<Segment>)
    requires TimesNonNegative(segs) && SingleLineTexts(segs) && segs != []
    ensures SplitLines(JoinLines(SrtLines(segs))) == SrtLines(segs)
  {
    CuesSingleLine(segs);
    SrtDocumentWith(segs, FormatSrt, Strip);
  }

  /** Reading a WebVTT document back line by line gives exactly the lines
      generate_vtt joined, as long as no stripped segment text holds a line break. */
  lemma VttDocumentLines(segs: seq<Segment>)
    requires TimesNonNegative(segs) && SingleLineTexts(segs)
    ensures SplitLines(JoinLines(VttLines(segs))) == VttLines(segs)
  {
    CuesSingleLine(segs);
    VttDocumentWith(segs, FormatVtt, Strip);
  }
}
