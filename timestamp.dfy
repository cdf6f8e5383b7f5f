/** Subtitle timestamps: a time in seconds split into hours, minutes, seconds
    and milliseconds, and written as HH:MM:SS,mmm (SubRip) or HH:MM:SS.mmm
    (WebVTT). Time is an exact non-negative real: Python's `//`, `%` and
    `int(...)` on a non-negative float become `.Floor` and subtraction. */
module Timestamp {
  import opened Wrappers
  import opened Decimal

  /** Python's `x // d` for a non-negative x and a positive integer literal d. */
  function FloorDiv(x: real, d: nat): int
    requires d > 0
  {
    (x / d as real).Floor
  }

  /** Python's `x % d` for a positive divisor: never negative. */
  function Mod(x: real, d: nat): real
    requires d > 0
  {
    x - (d * FloorDiv(x, d)) as real
  }

  /** The four numeric fields of a formatted timestamp. */
  datatype Clock = Clock(hours: nat, minutes: nat, secs: nat, millis: nat)

  /** The same instant counted in whole milliseconds. */
  function TotalMillis(c: Clock): nat {
    ((c.hours * 60 + c.minutes) * 60 + c.secs) * 1000 + c.millis
  }

  /** The field computation shared by format_timestamp_srt and format_timestamp_vtt. */
  function Fields(seconds: real): Clock
    requires seconds >= 0.0
  {
    FloorOfMod(seconds, 3600);
    FloorOfMod(seconds, 60);
    FloorOfMod(seconds, 1);
    var hours := FloorDiv(seconds, 3600);
    var minutes := FloorDiv(Mod(seconds, 3600), 60);
    var secs := Mod(seconds, 60).Floor;
    var millis := (Mod(seconds, 1) * 1000.0).Floor;
    Clock(hours, minutes, secs, millis)
  }

  /** Minutes, seconds and milliseconds are bounded; hours are not. The fields
      together lose only the part of the time below one millisecond. */
  lemma FieldsSpec(seconds: real)
    requires seconds >= 0.0
    ensures var c := Fields(seconds);
            c.minutes < 60 && c.secs < 60 && c.millis < 1000 &&
            c.hours * 3600 + c.minutes * 60 + c.secs == seconds.Floor &&
            c.millis == ((seconds - seconds.Floor as real) * 1000.0).Floor &&
            TotalMillis(c) == (seconds * 1000.0).Floor
  {
    var n := seconds.Floor;
    var c := Fields(seconds);
    WholeFields(seconds);
    WholeSplit(n);
    FloorOfMod(seconds, 1);
    MillisOfFraction(seconds);
    assert c.hours * 3600 + c.minutes * 60 + c.secs == n;
    assert TotalMillis(c) == (c.hours * 3600 + c.minutes * 60 + c.secs) * 1000 + c.millis;
  }

  /** Hours, minutes and seconds are computed from the whole part alone. */
  lemma WholeFields(seconds: real)
    requires seconds >= 0.0
    ensures var n, c := seconds.Floor, Fields(seconds);
            c.hours == n / 3600 && c.minutes == (n % 3600) / 60 && c.secs == n % 60
  {
    FloorDivOfFloor(seconds, 3600);
    FloorOfMod(seconds, 3600);
    FloorDivOfFloor(Mod(seconds, 3600), 60);
    FloorOfMod(seconds, 60);
  }

  /** Whole seconds split into bounded minutes and seconds and unbounded hours. */
  lemma WholeSplit(n: int)
    requires n >= 0
    ensures (n / 3600) * 3600 + ((n % 3600) / 60) * 60 + n % 60 == n
    ensures (n % 3600) / 60 < 60
  {
    var h, rest := n / 3600, n % 3600;
    assert n == h * 3600 + rest && 0 <= rest < 3600;
    var m, s := rest / 60, rest % 60;
    assert rest == m * 60 + s && 0 <= s < 60;
    DivMod(n, h * 60 + m, s, 60);
  }

  /** The divisors the timestamp formatter uses. */
  predicate Divisor(d: nat) {
    d == 1 || d == 60 || d == 3600
  }

  /** Dividing by a whole number and flooring sees only the whole part. */
  lemma FloorDivOfFloor(x: real, d: nat)
    requires x >= 0.0 && Divisor(d)
    ensures FloorDiv(x, d) == x.Floor / d
  {
    var n := x.Floor;
    var q := n / d;
    assert q * d <= n < q * d + d;
    var lo, hi := (q * d) as real, (q * d + d) as real;
    assert lo <= x < hi;
    if d == 1 {
      assert lo / 1.0 <= x / 1.0 < hi / 1.0;
    } else if d == 60 {
      assert lo / 60.0 <= x / 60.0 < hi / 60.0;
    } else {
      assert lo / 3600.0 <= x / 3600.0 < hi / 3600.0;
    }
    assert q as real <= x / d as real < q as real + 1.0;
  }

  /** The remainder keeps the fractional part and the whole-number remainder. */
  lemma FloorOfMod(x: real, d: nat)
    requires x >= 0.0 && Divisor(d)
    ensures Mod(x, d) >= 0.0
    ensures Mod(x, d).Floor == x.Floor % d
    ensures Mod(x, d) - (Mod(x, d).Floor as real) == x - x.Floor as real
  {
    FloorDivOfFloor(x, d);
    var n := x.Floor;
    assert Mod(x, d) == (n % d) as real + (x - n as real);
  }

  lemma MillisOfFraction(x: real)
    requires x >= 0.0
    ensures (x * 1000.0).Floor == x.Floor * 1000 + ((x - x.Floor as real) * 1000.0).Floor
  {
  }

  /** The format string shared by format_timestamp_srt and
      format_timestamp_vtt: hours padded to at least two digits, minutes and
      seconds to two, milliseconds to three, with sep before the milliseconds. */
  function Layout(c: Clock, sep: char): string {
    ZeroPad(c.hours, 2) + ":" + ZeroPad(c.minutes, 2) + ":" + ZeroPad(c.secs, 2) + [sep] + ZeroPad(c.millis, 3)
  }

  function Format(seconds: real, sep: char): string
    requires seconds >= 0.0
  {
    Layout(Fields(seconds), sep)
  }

  /** HH:MM:SS,mmm */
  function FormatSrt(seconds: real): (s: string)
    requires seconds >= 0.0
  {
    Format(seconds, ',')
  }

  /** HH:MM:SS.mmm */
  function FormatVtt(seconds: real): (s: string)
    requires seconds >= 0.0
  {
    Format(seconds, '.')
  }

  /** The timestamp grammar: hours of two or more digits, ':', two-digit minutes
      below 60, ':', two-digit seconds below 60, the separator, three-digit
      milliseconds. */
  predicate WellFormed(s: string, sep: char) {
    |s| >= 12 &&
    s[|s| - 10] == ':' && s[|s| - 7] == ':' && s[|s| - 4] == sep &&
    AllDigits(s[..|s| - 10]) && AllDigits(s[|s| - 9..|s| - 7]) &&
    AllDigits(s[|s| - 6..|s| - 4]) && AllDigits(s[|s| - 3..]) &&
    Value(s[|s| - 9..|s| - 7]) < 60 && Value(s[|s| - 6..|s| - 4]) < 60
  }

  /** Reads a timestamp back into whole milliseconds; None when it does not
      follow the grammar. */
  function Parse(s: string, sep: char): (r: Option<nat>)
    ensures r.Some? <==> WellFormed(s, sep)
  {
    if WellFormed(s, sep) then
      var hours := Value(s[..|s| - 10]);
      var minutes := Value(s[|s| - 9..|s| - 7]);
      var secs := Value(s[|s| - 6..|s| - 4]);
      var millis := Value(s[|s| - 3..]);
      Some(((hours * 60 + minutes) * 60 + secs) * 1000 + millis)
    else
      None
  }

  function Max(a: nat, b: nat): nat {
    if a < b then b else a
  }

  /** Where the pieces of a laid-out timestamp sit, counted from its end. */
  lemma Pieces(hh: string, mm: string, ss: string, sep: char, mmm: string)
    requires |hh| >= 2 && |mm| == 2 && |ss| == 2 && |mmm| == 3
    ensures var s := hh + ":" + mm + ":" + ss + [sep] + mmm;
            |s| >= 12 && s[|s| - 10] == ':' && s[|s| - 7] == ':' && s[|s| - 4] == sep &&
            s[..|s| - 10] == hh && s[|s| - 9..|s| - 7] == mm &&
            s[|s| - 6..|s| - 4] == ss && s[|s| - 3..] == mmm
  {
    var s := hh + ":" + mm + ":" + ss + [sep] + mmm;
    assert s[..|s| - 10] == hh;
    assert s[|s| - 9..|s| - 7] == mm;
    assert s[|s| - 6..|s| - 4] == ss;
    assert s[|s| - 3..] == mmm;
  }

  /** Each piece of a laid-out timestamp reads back as the field it was
      written from. */
  lemma LayoutShape(c: Clock, sep: char)
    requires c.minutes < 60 && c.secs < 60 && c.millis < 1000
    ensures var s := Layout(c, sep);
            WellFormed(s, sep) && |s[..|s| - 10]| == Max(2, |Show(c.hours)|) &&
            Value(s[..|s| - 10]) == c.hours && Value(s[|s| - 9..|s| - 7]) == c.minutes &&
            Value(s[|s| - 6..|s| - 4]) == c.secs && Value(s[|s| - 3..]) == c.millis
  {
    ShowLength(c.minutes, 2);
    ShowLength(c.secs, 2);
    ShowLength(c.millis, 3);
    Pieces(ZeroPad(c.hours, 2), ZeroPad(c.minutes, 2), ZeroPad(c.secs, 2), sep, ZeroPad(c.millis, 3));
  }

  lemma FormatShape(seconds: real, sep: char)
    requires seconds >= 0.0
    ensures var s := Format(seconds, sep);
            var c := Fields(seconds);
            WellFormed(s, sep) && |s[..|s| - 10]| == Max(2, |Show(c.hours)|) &&
            Value(s[..|s| - 10]) == c.hours && Value(s[|s| - 9..|s| - 7]) == c.minutes &&
            Value(s[|s| - 6..|s| - 4]) == c.secs && Value(s[|s| - 3..]) == c.millis
  {
    FieldsSpec(seconds);
    LayoutShape(Fields(seconds), sep);
  }

  /** A SubRip timestamp denotes the time truncated to whole milliseconds. */
  lemma ParseFormatSrt(seconds: real)
    requires seconds >= 0.0
    ensures Parse(FormatSrt(seconds), ',') == Some((seconds * 1000.0).Floor)
  {
    FieldsSpec(seconds);
    FormatShape(seconds, ',');
  }

  /** A WebVTT timestamp denotes the time truncated to whole milliseconds. */
  lemma ParseFormatVtt(seconds: real)
    requires seconds >= 0.0
    ensures Parse(FormatVtt(seconds), '.') == Some((seconds * 1000.0).Floor)
  {
    FieldsSpec(seconds);
    FormatShape(seconds, '.');
  }

  /** Times formatted the same are within the same millisecond, and times in
      different milliseconds are formatted differently. */
  lemma FormatSrtInjective(a: real, b: real)
    requires a >= 0.0 && b >= 0.0
    ensures FormatSrt(a) == FormatSrt(b) <==> (a * 1000.0).Floor == (b * 1000.0).Floor
  {
    ParseFormatSrt(a);
    ParseFormatSrt(b);
    if (a * 1000.0).Floor == (b * 1000.0).Floor {
      FieldsDetermined(a, b);
    }
  }

  /** The fields are determined by the millisecond count alone. */
  lemma FieldsDetermined(a: real, b: real)
    requires a >= 0.0 && b >= 0.0
    requires (a * 1000.0).Floor == (b * 1000.0).Floor
    ensures Fields(a) == Fields(b)
  {
    FieldsSpec(a);
    FieldsSpec(b);
    ClockOfTotal(Fields(a));
    ClockOfTotal(Fields(b));
  }

  /** A bounded clock is recovered from its millisecond count. */
  lemma ClockOfTotal(c: Clock)
    requires c.minutes < 60 && c.secs < 60 && c.millis < 1000
    ensures var t := TotalMillis(c);
            c.millis == t % 1000 && c.secs == (t / 1000) % 60 &&
            c.minutes == (t / 60000) % 60 && c.hours == t / 3600000
  {
    var t := TotalMillis(c);
    var s := (c.hours * 60 + c.minutes) * 60 + c.secs;
    var m := c.hours * 60 + c.minutes;
    DivMod(t, s, c.millis, 1000);
    DivMod(s, m, c.secs, 60);
    DivMod(m, c.hours, c.minutes, 60);
    assert t / 60000 == m by { DivMod(t, m, t - m * 60000, 60000); }
    assert t / 3600000 == c.hours by { DivMod(t, c.hours, t - c.hours * 3600000, 3600000); }
  }

  lemma DivMod(t: int, q: int, r: int, d: int)
    requires d > 0 && t == q * d + r && 0 <= r < d
    ensures t / d == q && t % d == r
  {
    var q', r' := t / d, t % d;
    assert (q - q') * d == r' - r;
    MultipleBounds(q - q', d);
  }

  lemma MultipleBounds(k: int, d: int)
    requires d > 0
    ensures k >= 1 ==> k * d >= d
    ensures k <= -1 ==> k * d <= -d
  {
  }

  /** The WebVTT timestamp is the SubRip one with '.' in place of ','. */
  lemma VttIsSrtWithDot(seconds: real)
    requires seconds >= 0.0
    ensures var srt, vtt := FormatSrt(seconds), FormatVtt(seconds);
            |vtt| == |srt| && vtt == srt[..|srt| - 4] + "." + srt[|srt| - 3..]
  {
    var c := Fields(seconds);
    var prefix := ZeroPad(c.hours, 2) + ":" + ZeroPad(c.minutes, 2) + ":" + ZeroPad(c.secs, 2);
    var mmm := ZeroPad(c.millis, 3);
    FieldsSpec(seconds);
    ShowLength(c.millis, 3);
    var srt := FormatSrt(seconds);
    assert srt == prefix + [','] + mmm;
    assert srt[..|srt| - 4] == prefix;
    assert srt[|srt| - 3..] == mmm;
  }

  /** A laid-out timestamp is made of digits, ':' and the separator only. */
  lemma LayoutAlphabet(c: Clock, sep: char)
    ensures var s := Layout(c, sep);
            forall i :: 0 <= i < |s| ==> IsDigit(s[i]) || s[i] == ':' || s[i] == sep
  {
    var hh, mm, ss, mmm := ZeroPad(c.hours, 2), ZeroPad(c.minutes, 2), ZeroPad(c.secs, 2), ZeroPad(c.millis, 3);
    var s := Layout(c, sep);
    assert s == hh + ":" + mm + ":" + ss + [sep] + mmm;
  }

  /** A formatted timestamp never contains a line break. */
  lemma FormatNoNewline(seconds: real, sep: char)
    requires seconds >= 0.0 && sep != '\n'
    ensures '\n' !in Format(seconds, sep)
  {
    LayoutAlphabet(Fields(seconds), sep);
  }
}
