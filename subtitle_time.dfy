/**
 * Cue timings of the subtitle parser: `SubtitleService.TryParseTime` and
 * `SubtitleService.TryParseTimeRange`. Times are whole milliseconds.
 *
 * `TimeSpan.TryParseExact` with the formats `hh:mm:ss.fff`, `h:mm:ss.fff`,
 * `hh:mm:ss` and `h:mm:ss` is modelled by `ReadClock`: one or two hour
 * digits (below 24), two minute digits and two second digits (each below
 * 60), and optionally a dot followed by exactly three digits of milliseconds.
 */
module SubtitleTime {
  import opened Wrappers
  import opened Strings

  /** One day in milliseconds: every time the reader accepts is below it. */
  const DayMs: nat := 86_400_000

  /** One hour in milliseconds: the range of the hour-less `MM:SS.fff` form. */
  const HourMs: nat := 3_600_000

  predicate Digits(s: string) {
    forall i :: 0 <= i < |s| ==> IsAsciiDigit(s[i])
  }

  /** The value of the `w` characters at `i`, when they are all digits. */
  function Field(s: string, i: nat, w: nat): (r: Option<nat>)
    requires i + w <= |s|
    ensures r.Some? <==> Digits(s[i..i + w])
  {
    if Digits(s[i..i + w]) then Some(DigitsValue(s[i..i + w])) else None
  }

  /** The exact-format reader standing for `TimeSpan.TryParseExact`. */
  function ReadClock(s: string): (r: Option<nat>)
    ensures r.Some? ==> r.value < DayMs
  {
    if !(|s| == 7 || |s| == 8 || |s| == 11 || |s| == 12) then None
    else
      var hw := if |s| == 7 || |s| == 11 then 1 else 2;
      if s[hw] != ':' || s[hw + 3] != ':' then None
      else if |s| > hw + 6 && s[hw + 6] != '.' then None
      else
        var frac := if |s| == hw + 6 then Some(0) else Field(s, hw + 7, 3);
        match (Field(s, 0, hw), Field(s, hw + 1, 2), Field(s, hw + 4, 2), frac)
        case (Some(h), Some(m), Some(sec), Some(f)) =>
          if h < 24 && m < 60 && sec < 60 && f < 1000 then
            Some(((h * 60 + m) * 60 + sec) * 1000 + f)
          else None
        case _ => None
  }

  /**
   * The text `TryParseTime` hands to the exact reader: trimmed, with commas
   * turned into dots for SRT, and with `00:` put in front when it holds a
   * single colon.
   */
  function Normalized(s: string, isVtt: bool): string {
    var t := Trim(s);
    var u := if isVtt then t else Replace(t, ',', '.');
    if CountChar(u, ':') == 1 then "00:" + u else u
  }

  /** `TryParseTime(s, isVtt, out time)`: the time, when it is accepted. */
  function TimeOf(s: string, isVtt: bool): (r: Option<nat>)
    ensures r.Some? ==> r.value < DayMs
  {
    ReadClock(Normalized(s, isVtt))
  }

  /** `TryParseTime`, with its colon-counting loop. */
  method TryParseTime(s: string, isVtt: bool) returns (ok: bool, time: nat)
    ensures ok <==> TimeOf(s, isVtt).Some?
    ensures ok ==> time == TimeOf(s, isVtt).value
    ensures !ok ==> time == 0
  {
    var t := Trim(s);
    if !isVtt {
      t := Replace(t, ',', '.');
    }
    var colonCount := 0;
    var i := 0;
    while i < |t|
      invariant 0 <= i <= |t|
      invariant colonCount == CountChar(t[..i], ':')
    {
      assert t[..i + 1] == t[..i] + [t[i]];
      CountCharAppend(t[..i], [t[i]], ':');
      if t[i] == ':' {
        colonCount := colonCount + 1;
      }
      i := i + 1;
    }
    assert t[..i] == t;
    if colonCount == 1 {
      t := "00:" + t;
    }
    match ReadClock(t)
    case Some(v) =>
      ok, time := true, v;
    case None =>
      ok, time := false, 0;
  }

  // ---------------------------------------------------------------- timing lines

  /** The end part up to its first space: VTT cue settings are ignored. */
  function EndTime(p: string): (r: string)
    ensures ' ' in p && p[0] != ' ' ==> ' ' !in r
  {
    match IndexOfChar(p, ' ')
    case Some(j) => if j > 0 then p[..j] else p
    case None => p
  }

  /** `Split("-->", 2, TrimEntries)`: both trimmed sides of the first arrow, if there is one. */
  function SplitArrow(line: string): (r: Option<(string, string)>)
    ensures r.None? <==> !Contains(line, "-->")
  {
    match IndexOf(line, "-->")
    case None => None
    case Some(k) => Some((Trim(line[..k]), Trim(line[k + 3..])))
  }

  /**
   * `TryParseTimeRange(line, isVtt, out start, out end)`: the line is split
   * at its first `-->`, both parts are trimmed, the end part is cut at its
   * first space and both times must be accepted.
   */
  function TimeRange(line: string, isVtt: bool): (r: Option<(nat, nat)>)
    ensures r.Some? ==> Contains(line, "-->")
    ensures r.Some? ==> r.value.0 < DayMs && r.value.1 < DayMs
  {
    match SplitArrow(line)
    case None => None
    case Some((before, after)) =>
      match TimeOf(before, isVtt)
      case None => None
      case Some(a) =>
        match TimeOf(EndTime(after), isVtt)
        case None => None
        case Some(b) => Some((a, b))
  }

  /** `TryParseTimeRange`, calling `TryParseTime` on both parts. */
  method TryParseTimeRange(line: string, isVtt: bool) returns (ok: bool, start: nat, end: nat)
    ensures ok <==> TimeRange(line, isVtt).Some?
    ensures ok ==> (start, end) == TimeRange(line, isVtt).value
  {
    start, end := 0, 0;
    var parts := SplitArrow(line);
    if parts.None? {
      return false, start, end;
    }
    var startPart, endPart := parts.value.0, parts.value.1;
    var spaceIdx := IndexOfChar(endPart, ' ');
    if spaceIdx.Some? && spaceIdx.value > 0 {
      endPart := endPart[..spaceIdx.value];
    }
    assert endPart == EndTime(parts.value.1);
    ok, start := TryParseTime(startPart, isVtt);
    if ok {
      ok, end := TryParseTime(endPart, isVtt);
    }
  }

  // ---------------------------------------------------------------- writing timestamps

  function Two(n: nat): (r: string)
    requires n < 100
    ensures |r| == 2 && Digits(r)
  {
    [DigitChar(n / 10), DigitChar(n % 10)]
  }

  function Three(n: nat): (r: string)
    requires n < 1000
    ensures |r| == 3 && Digits(r)
  {
    [DigitChar(n / 100), DigitChar(n / 10 % 10), DigitChar(n % 10)]
  }

  /** `MM:SS<sep>fff`: minutes, seconds and milliseconds of a time below an hour. */
  function MinuteStamp(ms: nat, sep: char): (r: string)
    requires ms < HourMs
    ensures |r| == 9
  {
    Two(ms / 1000 / 60) + ":" + Two(ms / 1000 % 60) + [sep] + Three(ms % 1000)
  }

  /** `HH:MM:SS<sep>fff`: the long timestamp, `,` in SRT files and `.` in VTT files. */
  function Stamp(ms: nat, sep: char): (r: string)
    requires ms < DayMs
    ensures |r| == 12
  {
    Two(ms / HourMs) + ":" + MinuteStamp(ms % HourMs, sep)
  }

  predicate IsStampChar(c: char) {
    IsAsciiDigit(c) || c == ':' || c == '.' || c == ','
  }

  predicate StampChars(s: string) {
    forall i :: 0 <= i < |s| ==> IsStampChar(s[i])
  }

  lemma MinuteStampChars(ms: nat, sep: char)
    requires ms < HourMs && (sep == '.' || sep == ',')
    ensures StampChars(MinuteStamp(ms, sep))
    ensures CountChar(MinuteStamp(ms, sep), ':') == 1
  {
    var a, b, c := Two(ms / 1000 / 60), Two(ms / 1000 % 60), Three(ms % 1000);
    ColonIsChar();
    OneMark(a, b, c, ':', sep);
  }

  lemma ColonIsChar()
    ensures ":" == [':']
  {
  }

  /** `a x b sep c` holds `x` once when only the marked place has it. */
  lemma OneMark(a: string, b: string, c: string, x: char, sep: char)
    requires x !in a && x !in b && x !in c && sep != x
    ensures CountChar(a + [x] + b + [sep] + c, x) == 1
  {
    CountCharAbsent(a, x);
    CountCharAbsent(b, x);
    CountCharAbsent(c, x);
    CountCharAbsent([sep], x);
    CountCharAppend(a + [x] + b + [sep], c, x);
    CountCharAppend(a + [x] + b, [sep], x);
    CountCharAppend(a + [x], b, x);
    CountCharAppend(a, [x], x);
    assert CountChar([x], x) == 1 by {
      assert [x][1..] == [];
    }
  }

  lemma StampChars12(ms: nat, sep: char)
    requires ms < DayMs && (sep == '.' || sep == ',')
    ensures StampChars(Stamp(ms, sep))
    ensures CountChar(Stamp(ms, sep), ':') == 2
  {
    var a, m := Two(ms / HourMs), MinuteStamp(ms % HourMs, sep);
    MinuteStampChars(ms % HourMs, sep);
    assert Stamp(ms, sep) == a + (":" + m);
    CountCharAbsent(a, ':');
    CountCharAppend(":", m, ':');
    CountCharAppend(a, ":" + m, ':');
  }

  lemma DigitCharValue(d: nat)
    requires d < 10
    ensures DigitChar(d) as int - '0' as int == d
  {
  }

  lemma TwoValue(n: nat)
    requires n < 100
    ensures DigitsValue(Two(n)) == n
  {
    var s := Two(n);
    DigitCharValue(n / 10);
    DigitCharValue(n % 10);
    assert s[..1] == [s[0]] && s[..1][..0] == [];
    assert DigitsValue(s[..1]) == n / 10;
    assert DigitsValue(s) == DigitsValue(s[..1]) * 10 + (s[1] as int - '0' as int);
  }

  lemma ThreeValue(n: nat)
    requires n < 1000
    ensures DigitsValue(Three(n)) == n
  {
    var s := Three(n);
    DigitCharValue(n / 100);
    DigitCharValue(n / 10 % 10);
    DigitCharValue(n % 10);
    assert s[..2] == [s[0], s[1]] && s[..2][..1] == [s[0]] && s[..2][..1][..0] == [];
    assert DigitsValue(s[..2][..1]) == n / 100;
    assert DigitsValue(s[..2]) == DigitsValue(s[..2][..1]) * 10 + (s[1] as int - '0' as int);
    assert DigitsValue(s) == DigitsValue(s[..2]) * 10 + (s[2] as int - '0' as int);
  }

  /** The exact reader reads back every long timestamp written with a dot. */
  lemma ReadStamp(ms: nat)
    requires ms < DayMs
    ensures ReadClock(Stamp(ms, '.')) == Some(ms)
  {
    var s := Stamp(ms, '.');
    var h, x := ms / HourMs, ms % HourMs;
    var m, sec, f := x / 1000 / 60, x / 1000 % 60, x % 1000;
    assert s == Two(h) + ":" + Two(m) + ":" + Two(sec) + "." + Three(f);
    assert s[0..2] == Two(h);
    assert s[3..5] == Two(m);
    assert s[6..8] == Two(sec);
    assert s[9..12] == Three(f);
    TwoValue(h);
    TwoValue(m);
    TwoValue(sec);
    ThreeValue(f);
    assert ((h * 60 + m) * 60 + sec) * 1000 + f == ms;
  }

  /** Trimming leaves a timestamp alone: its ends are digits. */
  lemma TrimStamp(s: string)
    requires s != [] && IsAsciiDigit(s[0]) && IsAsciiDigit(s[|s| - 1])
    ensures Trim(s) == s
  {
    TrimByNoop(s, IsWhiteSpace);
  }

  /** SRT reads `HH:MM:SS,fff` by turning the comma into a dot. */
  lemma SrtStampTime(ms: nat)
    requires ms < DayMs
    ensures TimeOf(Stamp(ms, ','), false) == Some(ms)
  {
    var s := Stamp(ms, ',');
    TrimStamp(s);
    var d := Stamp(ms, '.');
    forall i | 0 <= i < 12 ensures Replace(s, ',', '.')[i] == d[i] {
      ReplaceAt(s, ',', '.', i);
    }
    assert Replace(s, ',', '.') == d;
    StampChars12(ms, '.');
    ReadStamp(ms);
  }

  /** VTT reads `HH:MM:SS.fff` as it is. */
  lemma VttStampTime(ms: nat)
    requires ms < DayMs
    ensures TimeOf(Stamp(ms, '.'), true) == Some(ms)
  {
    TrimStamp(Stamp(ms, '.'));
    StampChars12(ms, '.');
    ReadStamp(ms);
  }

  /** VTT does not accept the SRT comma: the reader wants a dot. */
  lemma VttRejectsComma(ms: nat)
    requires ms < DayMs
    ensures TimeOf(Stamp(ms, ','), true) == None
  {
    TrimStamp(Stamp(ms, ','));
    StampChars12(ms, ',');
  }

  /** A time with a single colon is read as `MM:SS.fff` with zero hours. */
  lemma MinuteStampTime(ms: nat)
    requires ms < HourMs
    ensures TimeOf(MinuteStamp(ms, '.'), true) == Some(ms)
  {
    var s := MinuteStamp(ms, '.');
    TrimStamp(s);
    MinuteStampChars(ms, '.');
    StampBelowHour(ms, '.');
    ReadStamp(ms);
  }

  /** Below an hour the long timestamp is the short one after `00:`. */
  lemma StampBelowHour(ms: nat, sep: char)
    requires ms < HourMs
    ensures Stamp(ms, sep) == "00:" + MinuteStamp(ms, sep)
  {
    assert ms / HourMs == 0 && ms % HourMs == ms;
    ColonIsChar();
    assert Two(0) == ['0', '0'];
    HoursPrefix(Two(0), MinuteStamp(ms, sep));
  }

  lemma HoursPrefix(h: string, m: string)
    requires h == ['0', '0']
    ensures h + ":" + m == "00:" + m
  {
  }

  /** The reader refuses hours from 24 on. */
  lemma ReadClockHours(h: nat, rest: string)
    requires 24 <= h < 100
    ensures ReadClock(Two(h) + rest) == None
  {
    var s := Two(h) + rest;
    if |s| == 8 || |s| == 12 {
      assert s[0..2] == Two(h);
      TwoValue(h);
    } else if |s| == 7 || |s| == 11 {
      assert s[1] == Two(h)[1];
    }
  }

  lemma MinuteSpelling()
    ensures MinuteStamp(1000, '.') == "00:01.000"
  {
  }

  lemma SrtSpelling()
    ensures Stamp(2500, ',') == "00:00:02,500"
  {
  }

  /** `00:01.000` in a VTT file, from `SubtitleServiceTests.cs`. */
  lemma MinuteExample()
    ensures TimeOf("00:01.000", true) == Some(1000)
  {
    MinuteSpelling();
    MinuteStampTime(1000);
  }

  /** `00:00:02,500` in an SRT file, from `SubtitleServiceTests.cs`. */
  lemma SrtExample()
    ensures TimeOf("00:00:02,500", false) == Some(2500)
  {
    SrtSpelling();
    SrtStampTime(2500);
  }

  // ---------------------------------------------------------------- timing-line round trip

  /** No position before the end of a `-`-free prefix starts an arrow. */
  lemma ArrowAfter(line: string, k: nat)
    requires OccursAt(line, "-->", k)
    requires forall j :: 0 <= j < k ==> line[j] != '-'
    ensures IndexOf(line, "-->") == Some(k)
  {
    forall j | 0 <= j < k ensures !OccursAt(line, "-->", j) {
      assert line[j] != '-';
    }
  }

  /** Cutting `x + y` at the end of `x` gives back both parts. */
  lemma CutAt(x: string, y: string)
    ensures (x + y)[..|x|] == x && (x + y)[|x|..] == y
  {
  }

  /** Cutting `b` followed by nothing or by a space at its first space gives `b`. */
  lemma EndTimeCuts(b: string, t: string)
    requires b != [] && ' ' !in b
    requires t == [] || t[0] == ' '
    ensures EndTime(b + t) == b
  {
    if t == [] {
      assert b + t == b;
    } else {
      var u := t[1..];
      assert b + t == b + [' '] + u;
      IndexOfCharAfter(b, u, ' ');
      CutAt(b, t);
    }
  }

  /** The first arrow of `a -->rest` is the one after `a`, which trimming keeps whole. */
  lemma ArrowAfterStamp(a: string, rest: string)
    requires a != [] && StampChars(a)
    ensures SplitArrow(a + " " + ("-->" + rest)) == Some((a, Trim(rest)))
  {
    var pre := a + " ";
    var line := pre + ("-->" + rest);
    var k := |pre|;
    CutAt(pre, "-->" + rest);
    CutAt("-->", rest);
    assert line[k..][..3] == "-->";
    assert line[k..k + 3] == "-->";
    ArrowAfter(line, k);
    assert line[k + 3..] == rest;
    assert forall i :: 0 <= i < |a| ==> !IsWhiteSpace(a[i]);
    assert pre == "" + a + " ";
    TrimByCore("", a, " ", IsWhiteSpace);
  }

  /** The trimmed end part ` b<settings>`, cut at its first space, is `b`. */
  lemma EndOfStamp(b: string, settings: string)
    requires b != [] && StampChars(b)
    requires settings == [] || settings[0] == ' '
    ensures EndTime(Trim(" " + b + settings)) == b
  {
    StampEnds(b);
    SpaceIsWhite(" ");
    TrimAfterSpace(" ", b, settings);
    var n := |settings| - TrailCount(settings, IsWhiteSpace);
    EndTimeCuts(b, settings[..n]);
  }

  /** A stamp has no white space, at its ends or anywhere. */
  lemma StampEnds(b: string)
    requires b != [] && StampChars(b)
    ensures !IsWhiteSpace(b[0]) && !IsWhiteSpace(b[|b| - 1]) && ' ' !in b
  {
    assert IsStampChar(b[0]) && IsStampChar(b[|b| - 1]);
  }

  lemma SpaceIsWhite(s: string)
    requires s == " "
    ensures forall i :: 0 <= i < |s| ==> IsWhiteSpace(s[i])
  {
  }

  /**
   * The arrow of `a --> b<settings>` is the one after `a`, and the end part
   * cut at its first space is `b`.
   */
  lemma TimingParts(a: string, b: string, settings: string)
    requires a != [] && b != [] && StampChars(a) && StampChars(b)
    requires settings == [] || settings[0] == ' '
    ensures SplitArrow(a + " --> " + b + settings).Some?
    ensures SplitArrow(a + " --> " + b + settings).value.0 == a
    ensures EndTime(SplitArrow(a + " --> " + b + settings).value.1) == b
  {
    var rest := " " + b + settings;
    assert a + " --> " + b + settings == a + " " + ("-->" + rest);
    ArrowAfterStamp(a, rest);
    EndOfStamp(b, settings);
  }

  /**
   * A line `a --> b` followed by nothing or by a space and cue settings
   * reads as the two times `a` and `b`, and fails when either fails.
   */
  lemma TimingLine(a: string, b: string, settings: string, isVtt: bool)
    requires a != [] && b != [] && StampChars(a) && StampChars(b)
    requires settings == [] || settings[0] == ' '
    ensures TimeOf(a, isVtt).Some? && TimeOf(b, isVtt).Some? ==>
      TimeRange(a + " --> " + b + settings, isVtt) == Some((TimeOf(a, isVtt).value, TimeOf(b, isVtt).value))
    ensures TimeOf(a, isVtt).None? || TimeOf(b, isVtt).None? ==>
      TimeRange(a + " --> " + b + settings, isVtt) == None
  {
    TimingParts(a, b, settings);
  }

  /** The SRT timing line `HH:MM:SS,fff --> HH:MM:SS,fff` gives back both times. */
  lemma SrtTimingLine(x: nat, y: nat)
    requires x < DayMs && y < DayMs
    ensures TimeRange(Stamp(x, ',') + " --> " + Stamp(y, ','), false) == Some((x, y))
  {
    StampChars12(x, ',');
    StampChars12(y, ',');
    SrtStampTime(x);
    SrtStampTime(y);
    TimingLine(Stamp(x, ','), Stamp(y, ','), "", false);
    assert Stamp(x, ',') + " --> " + Stamp(y, ',') + "" == Stamp(x, ',') + " --> " + Stamp(y, ',');
  }

  /** The VTT timing line gives back both times whatever cue settings follow it. */
  lemma VttTimingLine(x: nat, y: nat, settings: string)
    requires x < DayMs && y < DayMs
    requires settings == [] || settings[0] == ' '
    ensures TimeRange(Stamp(x, '.') + " --> " + Stamp(y, '.') + settings, true) == Some((x, y))
  {
    StampChars12(x, '.');
    StampChars12(y, '.');
    VttStampTime(x);
    VttStampTime(y);
    TimingLine(Stamp(x, '.'), Stamp(y, '.'), settings, true);
  }

  /** The hour-less VTT timing line `MM:SS.fff --> MM:SS.fff` gives back both times. */
  lemma VttMinuteTimingLine(x: nat, y: nat)
    requires x < HourMs && y < HourMs
    ensures TimeRange(MinuteStamp(x, '.') + " --> " + MinuteStamp(y, '.'), true) == Some((x, y))
  {
    MinuteStampChars(x, '.');
    MinuteStampChars(y, '.');
    MinuteStampTime(x);
    MinuteStampTime(y);
    TimingLine(MinuteStamp(x, '.'), MinuteStamp(y, '.'), "", true);
    assert MinuteStamp(x, '.') + " --> " + MinuteStamp(y, '.') + "" == MinuteStamp(x, '.') + " --> " + MinuteStamp(y, '.');
  }
}
