/**
 * `SubtitleService`: the SRT and WebVTT cue parsers.
 *
 * The text is cut into lines as `StringReader.ReadLine` does, and one scan
 * shared by both formats walks the lines with an index: blank lines are
 * skipped, an optional line before the timing line is skipped (an all-digit
 * index in SRT, a cue id without `-->` in VTT), a timing line that does not
 * read is skipped, and otherwise the cue's text is the run of non-blank
 * lines after the timing line, joined by line breaks. VTT also skips a
 * leading `WEBVTT` header line.
 */
module SubtitleService {
  import opened Wrappers
  import opened Strings
  import opened SubtitleTime
  import Seqs

  /** `SubtitleCue(Start, End, Text)`, with times in milliseconds. */
  datatype Cue = Cue(start: nat, end: nat, text: string)

  /** `SubtitleFormat`: its two named values, and any other value of the enum. */
  datatype Format = Srt | Vtt | Other

  /** `Environment.NewLine`, which `AppendLine` writes between text lines. */
  const NewLine: string := "\n"

  // ---------------------------------------------------------------- lines

  predicate IsBreak(c: char) {
    c == '\n' || c == '\r'
  }

  predicate NoBreaks(s: string) {
    forall i :: 0 <= i < |s| ==> !IsBreak(s[i])
  }

  /**
   * `StringReader.ReadLine` on text that is not used up: the characters up
   * to the first line break, and the text after that break, where `\r\n`
   * counts as one break.
   */
  function ReadLine(t: string): (r: (string, string))
    requires t != []
    ensures |r.1| < |t|
  {
    var k := Span(t, IsBreak);
    if k == |t| then (t, [])
    else if t[k] == '\r' && k + 1 < |t| && t[k + 1] == '\n' then (t[..k], t[k + 2..])
    else (t[..k], t[k + 1..])
  }

  /** The lines `ReadLine` returns until it returns null. */
  function Lines(t: string): seq<string>
    decreases |t|
  {
    if t == [] then [] else [ReadLine(t).0] + Lines(ReadLine(t).1)
  }

  /** `TrimEnd(c)`. */
  function TrimEndChar(s: string, c: char): (r: string)
    ensures |r| <= |s|
  {
    s[..|s| - TrailCount(s, x => x == c)]
  }

  lemma ReadLineNoBreaks(t: string)
    requires t != []
    ensures NoBreaks(ReadLine(t).0)
  {
    SpanStops(t, IsBreak);
  }

  /** `TrimEnd('\r')` changes nothing on a line `ReadLine` returned. */
  lemma TrimEndNoop(s: string)
    requires NoBreaks(s)
    ensures TrimEndChar(s, '\r') == s
  {
    if s != [] {
      assert !IsBreak(s[|s| - 1]);
    }
  }

  /** `SplitLines`: every line of the text, each with trailing `\r` trimmed. */
  method SplitLines(text: string) returns (lines: seq<string>)
    ensures lines == Lines(text)
  {
    lines := [];
    var rest := text;
    while rest != []
      invariant lines + Lines(rest) == Lines(text)
      decreases |rest|
    {
      var next := ReadLine(rest);
      ReadLineNoBreaks(rest);
      TrimEndNoop(next.0);
      assert lines + Lines(rest) == (lines + [next.0]) + Lines(next.1);
      lines := lines + [TrimEndChar(next.0, '\r')];
      rest := next.1;
    }
  }

  /** Every line holds no line break. */
  lemma {:induction false} LinesNoBreaks(t: string)
    ensures forall i :: 0 <= i < |Lines(t)| ==> NoBreaks(Lines(t)[i])
    decreases |t|
  {
    if t != [] {
      ReadLineNoBreaks(t);
      LinesNoBreaks(ReadLine(t).1);
    }
  }

  /** The two line-break conventions: `\n` and `\r\n`. */
  predicate IsNewLine(nl: string) {
    nl == "\n" || nl == "\r\n"
  }

  /** A line followed by a line break is read as that line. */
  lemma ReadLineStep(l: string, nl: string, rest: string)
    requires NoBreaks(l) && IsNewLine(nl)
    ensures Lines(l + nl + rest) == [l] + Lines(rest)
  {
    var t := l + nl + rest;
    assert t == l + (nl + rest);
    SpanSkip(l, nl + rest, IsBreak);
    var k := |l|;
    assert t[k] == nl[0];
    if nl == "\n" {
      assert t[k + 1..] == rest;
    } else {
      assert t[k + 1] == '\n';
      assert t[k + 2..] == rest;
    }
    assert t[..k] == l;
  }

  /** A last line with no break after it is read as it is. */
  lemma ReadLastLine(l: string)
    requires NoBreaks(l) && l != []
    ensures Lines(l) == [l]
  {
    SpanSkip(l, [], IsBreak);
    assert l + [] == l;
  }

  lemma JoinCons(sep: string, p: string, ps: seq<string>)
    requires ps != []
    ensures Join(sep, [p] + ps) == p + sep + Join(sep, ps)
  {
    assert ([p] + ps)[1..] == ps;
  }

  /**
   * Lines joined by line breaks are read back, provided none holds a break
   * and the last is not empty (an empty last line leaves no trace).
   */
  lemma {:induction false} LinesOfJoin(ls: seq<string>, nl: string)
    requires IsNewLine(nl)
    requires forall i :: 0 <= i < |ls| ==> NoBreaks(ls[i])
    requires ls != [] ==> ls[|ls| - 1] != ""
    ensures Lines(Join(nl, ls)) == ls
    decreases |ls|
  {
    if |ls| == 1 {
      ReadLastLine(ls[0]);
    } else if |ls| > 1 {
      var rest := ls[1..];
      assert ls == [ls[0]] + rest;
      JoinCons(nl, ls[0], rest);
      ReadLineStep(ls[0], nl, Join(nl, rest));
      LinesOfJoin(rest, nl);
    }
  }

  /** Lines each ended by a line break are read back, an empty last one included. */
  lemma {:induction false} LinesOfTerminated(ls: seq<string>, nl: string)
    requires IsNewLine(nl) && ls != []
    requires forall i :: 0 <= i < |ls| ==> NoBreaks(ls[i])
    ensures Lines(Join(nl, ls) + nl) == ls
    decreases |ls|
  {
    if |ls| == 1 {
      ReadLineStep(ls[0], nl, "");
      assert ls[0] + nl + "" == Join(nl, ls) + nl;
    } else {
      var rest := ls[1..];
      assert ls == [ls[0]] + rest;
      JoinCons(nl, ls[0], rest);
      assert Join(nl, ls) + nl == ls[0] + nl + (Join(nl, rest) + nl);
      ReadLineStep(ls[0], nl, Join(nl, rest) + nl);
      LinesOfTerminated(rest, nl);
    }
  }

  // ---------------------------------------------------------------- the scan

  /** `IsAllDigits`, with `char.IsDigit` read as the ASCII digits. */
  predicate AllDigits(s: string) {
    |s| > 0 && forall i :: 0 <= i < |s| ==> IsAsciiDigit(s[i])
  }

  /** `IsAllDigits`: its loop stops at the first non-digit; the empty string is not a number. */
  method IsAllDigits(s: string) returns (r: bool)
    ensures r <==> AllDigits(s)
  {
    for i := 0 to |s|
      invariant forall j :: 0 <= j < i ==> IsAsciiDigit(s[j])
    {
      if !IsAsciiDigit(s[i]) {
        return false;
      }
    }
    return |s| > 0;
  }

  /** The line a format skips before a timing line: an SRT index, a VTT cue id. */
  predicate Skippable(line: string, isVtt: bool) {
    if isVtt then !Contains(line, "-->") else AllDigits(line)
  }

  /** The number of non-blank lines at the front. */
  function RunLength(ls: seq<string>): (n: nat)
    ensures n <= |ls|
    decreases |ls|
  {
    if ls == [] || IsBlank(ls[0]) then 0 else 1 + RunLength(ls[1..])
  }

  /** What `TryParseTimeRange` makes of each line. */
  function Ranges(ls: seq<string>, isVtt: bool): (rs: seq<Option<(nat, nat)>>)
    ensures |rs| == |ls|
    decreases |ls|
  {
    if ls == [] then [] else [TimeRange(ls[0], isVtt)] + Ranges(ls[1..], isVtt)
  }

  lemma {:induction false} RangesAt(ls: seq<string>, isVtt: bool, k: nat)
    requires k < |ls|
    ensures Ranges(ls, isVtt)[k] == TimeRange(ls[k], isVtt)
    decreases k
  {
    if k > 0 {
      RangesAt(ls[1..], isVtt, k - 1);
    }
  }

  lemma {:induction false} RangesDrop(ls: seq<string>, isVtt: bool, k: nat)
    requires k <= |ls|
    ensures Ranges(ls, isVtt)[k..] == Ranges(ls[k..], isVtt)
    decreases k
  {
    if k > 0 {
      RangesDrop(ls[1..], isVtt, k - 1);
      assert ls[1..][k - 1..] == ls[k..];
    }
  }

  lemma {:induction false} RangesAppend(a: seq<string>, b: seq<string>, isVtt: bool)
    ensures Ranges(a + b, isVtt) == Ranges(a, isVtt) + Ranges(b, isVtt)
    decreases |a|
  {
    if a == [] {
      assert a + b == b;
    } else {
      assert (a + b)[1..] == a[1..] + b;
      RangesAppend(a[1..], b, isVtt);
    }
  }

  /**
   * The cues of the lines, scanned from the first one; `rs` holds the
   * timing each line reads as.
   */
  function Scan(ls: seq<string>, rs: seq<Option<(nat, nat)>>, isVtt: bool): seq<Cue>
    requires |rs| == |ls|
    decreases |ls|, 1
  {
    if ls == [] then []
    else if IsBlank(ls[0]) then Scan(ls[1..], rs[1..], isVtt)
    else if Skippable(ls[0], isVtt) then Timed(ls[1..], rs[1..], isVtt)
    else Timed(ls, rs, isVtt)
  }

  /** The cues of the lines, the first of which is where a timing line is expected. */
  function Timed(ls: seq<string>, rs: seq<Option<(nat, nat)>>, isVtt: bool): seq<Cue>
    requires |rs| == |ls|
    decreases |ls|, 0
  {
    if ls == [] then []
    else
      match rs[0]
      case None => Scan(ls[1..], rs[1..], isVtt)
      case Some((a, b)) =>
        var n := RunLength(ls[1..]);
        [Cue(a, b, Join(NewLine, ls[1..][..n]))] + Scan(ls[1..][n..], rs[1..][n..], isVtt)
  }

  /** The cues of the lines as a format reads them. */
  function Cues(ls: seq<string>, isVtt: bool): seq<Cue> {
    Scan(ls, Ranges(ls, isVtt), isVtt)
  }

  lemma ScanBlank(ls: seq<string>, rs: seq<Option<(nat, nat)>>, i: nat, isVtt: bool)
    requires |rs| == |ls| && i < |ls| && IsBlank(ls[i])
    ensures Scan(ls[i..], rs[i..], isVtt) == Scan(ls[i + 1..], rs[i + 1..], isVtt)
  {
    assert ls[i..][1..] == ls[i + 1..];
    assert rs[i..][1..] == rs[i + 1..];
  }

  lemma ScanSkip(ls: seq<string>, rs: seq<Option<(nat, nat)>>, i: nat, j: nat, isVtt: bool)
    requires |rs| == |ls| && i < |ls| && !IsBlank(ls[i])
    requires j == if Skippable(ls[i], isVtt) then i + 1 else i
    ensures Timed(ls[j..], rs[j..], isVtt) == Scan(ls[i..], rs[i..], isVtt)
  {
    assert ls[i..][1..] == ls[i + 1..];
    assert rs[i..][1..] == rs[i + 1..];
  }

  lemma TimedFail(ls: seq<string>, rs: seq<Option<(nat, nat)>>, i: nat, isVtt: bool)
    requires |rs| == |ls| && i < |ls| && rs[i].None?
    ensures Timed(ls[i..], rs[i..], isVtt) == Scan(ls[i + 1..], rs[i + 1..], isVtt)
  {
    assert ls[i..][1..] == ls[i + 1..];
    assert rs[i..][1..] == rs[i + 1..];
  }

  lemma TimedCue(ls: seq<string>, rs: seq<Option<(nat, nat)>>, i: nat, a: nat, b: nat, isVtt: bool, n: nat)
    requires |rs| == |ls| && i < |ls| && rs[i] == Some((a, b))
    requires n == RunLength(ls[i + 1..])
    ensures Timed(ls[i..], rs[i..], isVtt) ==
      [Cue(a, b, Join(NewLine, ls[i + 1..i + 1 + n]))] + Scan(ls[i + 1 + n..], rs[i + 1 + n..], isVtt)
  {
    var t, u := ls[i..], rs[i..];
    assert t[0] == ls[i] && u[0] == rs[i];
    assert t[1..] == ls[i + 1..] && u[1..] == rs[i + 1..];
    assert ls[i + 1..][..n] == ls[i + 1..i + 1 + n];
    assert ls[i + 1..][n..] == ls[i + 1 + n..];
    assert rs[i + 1..][n..] == rs[i + 1 + n..];
  }

  lemma RunLengthStep(ls: seq<string>, i: nat)
    requires i < |ls| && !IsBlank(ls[i])
    ensures RunLength(ls[i..]) == 1 + RunLength(ls[i + 1..])
  {
    assert ls[i..][1..] == ls[i + 1..];
  }

  lemma RunLengthStop(ls: seq<string>, i: nat)
    requires i <= |ls|
    requires i < |ls| ==> IsBlank(ls[i])
    ensures RunLength(ls[i..]) == 0
  {
  }

  lemma {:induction false} JoinSnoc(sep: string, ps: seq<string>, p: string)
    ensures Join(sep, ps + [p]) == if ps == [] then p else Join(sep, ps) + sep + p
    decreases |ps|
  {
    if |ps| == 1 {
      assert ps + [p] == [ps[0]] + [p];
      JoinCons(sep, ps[0], [p]);
    } else if |ps| > 1 {
      assert ps + [p] == [ps[0]] + (ps[1..] + [p]);
      JoinCons(sep, ps[0], ps[1..] + [p]);
      JoinSnoc(sep, ps[1..], p);
      JoinCons(sep, ps[0], ps[1..]);
      assert ps == [ps[0]] + ps[1..];
    }
  }

  /**
   * The cue text loop: the run of non-blank lines from `from`, joined by
   * `AppendLine`, and the index after it.
   */
  method ReadText(lines: seq<string>, from: nat) returns (text: string, i: nat)
    requires from <= |lines|
    ensures i == from + RunLength(lines[from..]) && i <= |lines|
    ensures text == Join(NewLine, lines[from..i])
  {
    var sb := "";
    i := from;
    while i < |lines| && !IsBlank(lines[i])
      invariant from <= i <= |lines|
      invariant RunLength(lines[from..]) == (i - from) + RunLength(lines[i..])
      invariant sb == Join(NewLine, lines[from..i])
      invariant i > from <==> |sb| > 0
      decreases |lines| - i
    {
      RunLengthStep(lines, i);
      assert lines[from..i + 1] == lines[from..i] + [lines[i]];
      JoinSnoc(NewLine, lines[from..i], lines[i]);
      assert |lines[i]| > 0;
      if |sb| > 0 {
        sb := sb + NewLine;
      }
      sb := sb + lines[i];
      i := i + 1;
    }
    RunLengthStop(lines, i);
    text := sb;
  }

  /**
   * One pass of the loop of `ParseSrt` and `ParseVtt` from line `i`: the cue
   * it adds, if any, and the index it leaves for the next pass.
   */
  method ScanOne(lines: seq<string>, ghost rs: seq<Option<(nat, nat)>>, i: nat, isVtt: bool)
    returns (cue: Option<Cue>, next: nat)
    requires rs == Ranges(lines, isVtt) && i < |lines|
    ensures i < next <= |lines|
    ensures Scan(lines[i..], rs[i..], isVtt) == (if cue.Some? then [cue.value] else []) + Scan(lines[next..], rs[next..], isVtt)
  {
    if IsBlank(lines[i]) {
      ScanBlank(lines, rs, i, isVtt);
      return None, i + 1;
    }
    var at := i;
    var skip: bool;
    if isVtt {
      skip := !Contains(lines[at], "-->");
    } else {
      skip := IsAllDigits(lines[at]);
    }
    if skip {
      at := at + 1;
    }
    ScanSkip(lines, rs, i, at, isVtt);
    if at >= |lines| {
      assert lines[at..] == [] && rs[at..] == [];
      return None, at;
    }
    cue, next := ScanTimed(lines, rs, at, isVtt);
  }

  /**
   * The rest of a pass, from the line where a timing line is expected: a
   * line that does not read is skipped, otherwise the text after it is read.
   */
  method ScanTimed(lines: seq<string>, ghost rs: seq<Option<(nat, nat)>>, at: nat, isVtt: bool)
    returns (cue: Option<Cue>, next: nat)
    requires rs == Ranges(lines, isVtt) && at < |lines|
    ensures at < next <= |lines|
    ensures Timed(lines[at..], rs[at..], isVtt) == (if cue.Some? then [cue.value] else []) + Scan(lines[next..], rs[next..], isVtt)
  {
    RangesAt(lines, isVtt, at);
    var ok, a, b := TryParseTimeRange(lines[at], isVtt);
    if !ok {
      TimedFail(lines, rs, at, isVtt);
      return None, at + 1;
    }
    ghost var n := RunLength(lines[at + 1..]);
    TimedCue(lines, rs, at, a, b, isVtt, n);
    var text;
    text, next := ReadText(lines, at + 1);
    cue := Some(Cue(a, b, text));
  }

  /** The loop of `ParseSrt` and `ParseVtt` from line `start` on. */
  method ScanCues(lines: seq<string>, start: nat, isVtt: bool) returns (cues: seq<Cue>)
    requires start <= |lines|
    ensures cues == Cues(lines[start..], isVtt)
  {
    ghost var rs := Ranges(lines, isVtt);
    ghost var goal := Scan(lines[start..], rs[start..], isVtt);
    cues := [];
    var i := start;
    while i < |lines|
      invariant start <= i <= |lines|
      invariant cues + Scan(lines[i..], rs[i..], isVtt) == goal
      decreases |lines| - i
    {
      var cue, next := ScanOne(lines, rs, i, isVtt);
      ghost var after := Scan(lines[next..], rs[next..], isVtt);
      if cue.Some? {
        Seqs.Assoc(cues, [cue.value], after);
        cues := cues + [cue.value];
      } else {
        Seqs.EmptyHead(after);
      }
      i := next;
    }
    assert lines[i..] == [] && rs[i..] == [];
    RangesDrop(lines, isVtt, start);
  }

  // ---------------------------------------------------------------- the parsers

  /** `ParseSrt` on lines. */
  function SrtCues(ls: seq<string>): seq<Cue> {
    Cues(ls, false)
  }

  /** Whether a VTT file's first line is a `WEBVTT` header. */
  predicate HasHeader(ls: seq<string>) {
    ls != [] && StartsWithIgnoreCase(ls[0], "WEBVTT")
  }

  /** `ParseVtt` on lines: a leading `WEBVTT` line is skipped. */
  function VttCues(ls: seq<string>): seq<Cue> {
    if HasHeader(ls) then Cues(ls[1..], true) else Cues(ls, true)
  }

  /** `ParseAsync` on the text read from the stream. */
  function Parse(text: string, format: Format): seq<Cue> {
    match format
    case Srt => SrtCues(Lines(text))
    case Vtt => VttCues(Lines(text))
    case Other => []
  }

  method ParseSrt(text: string) returns (cues: seq<Cue>)
    ensures cues == Parse(text, Srt)
  {
    var lines := SplitLines(text);
    cues := ScanCues(lines, 0, false);
    assert lines[0..] == lines;
  }

  method ParseVtt(text: string) returns (cues: seq<Cue>)
    ensures cues == Parse(text, Vtt)
  {
    var lines := SplitLines(text);
    var i := 0;
    if i < |lines| && StartsWithIgnoreCase(lines[i], "WEBVTT") {
      i := i + 1;
    }
    cues := ScanCues(lines, i, true);
    assert lines[0..] == lines;
  }

  /** `ParseAsync`: reading the stream is left out; the text is given. */
  method ParseAsync(text: string, format: Format) returns (cues: seq<Cue>)
    ensures cues == Parse(text, format)
    ensures format == Other ==> cues == []
  {
    match format
    case Srt => cues := ParseSrt(text);
    case Vtt => cues := ParseVtt(text);
    case Other => cues := [];
  }
}

module SubtitleRoundTrip {
  import opened Wrappers
  import opened Strings
  import opened SubtitleTime
  import opened SubtitleService

  // ---------------------------------------------------------------- writing cues

  /** A cue as a file writes it: an optional id line (an SRT index or a VTT cue id), the timing line, the text lines. */
  datatype Block = Block(id: Option<string>, timing: string, text: seq<string>)

  function BlockLines(b: Block): seq<string> {
    (if b.id.Some? then [b.id.value] else []) + [b.timing] + b.text
  }

  /** Blocks one after the other, a blank line between two blocks. */
  function Render(bs: seq<Block>): seq<string>
    decreases |bs|
  {
    if bs == [] then []
    else if |bs| == 1 then BlockLines(bs[0])
    else BlockLines(bs[0]) + [""] + Render(bs[1..])
  }

  // The reading is first stated for any timing reader that only accepts
  // lines holding `-->`, then for `TimeRange` itself.

  type Reader = string -> Option<(nat, nat)>

  /** The timing reader of a format. */
  function TimingReader(isVtt: bool): Reader {
    line => TimeRange(line, isVtt)
  }

  ghost predicate ArrowReader(read: Reader) {
    forall line :: read(line).Some? ==> Contains(line, "-->")
  }

  function ReadAll(read: Reader, ls: seq<string>): (rs: seq<Option<(nat, nat)>>)
    ensures |rs| == |ls|
    decreases |ls|
  {
    if ls == [] then [] else [read(ls[0])] + ReadAll(read, ls[1..])
  }

  /**
   * A block its format reads back: its timing line reads, its id line is
   * one the format skips, and its text lines are not blank.
   */
  predicate Fits(b: Block, isVtt: bool, read: Reader) {
    read(b.timing).Some?
    && (b.id.Some? ==> !IsBlank(b.id.value) && Skippable(b.id.value, isVtt))
    && (forall i :: 0 <= i < |b.text| ==> !IsBlank(b.text[i]))
  }

  predicate AllFit(bs: seq<Block>, isVtt: bool, read: Reader) {
    forall i :: 0 <= i < |bs| ==> Fits(bs[i], isVtt, read)
  }

  function CuesBy(bs: seq<Block>, isVtt: bool, read: Reader): seq<Cue>
    requires AllFit(bs, isVtt, read)
    decreases |bs|
  {
    if bs == [] then []
    else
      var r := read(bs[0].timing).value;
      [Cue(r.0, r.1, Join(NewLine, bs[0].text))] + CuesBy(bs[1..], isVtt, read)
  }

  /** Blocks that `TimeRange` reads back. */
  predicate AllOk(bs: seq<Block>, isVtt: bool) {
    AllFit(bs, isVtt, TimingReader(isVtt))
  }

  /** The cue of each block: its timing as `TimeRange` reads it, its text lines joined. */
  function CuesOf(bs: seq<Block>, isVtt: bool): seq<Cue>
    requires AllOk(bs, isVtt)
  {
    CuesBy(bs, isVtt, TimingReader(isVtt))
  }

  // ---------------------------------------------------------------- reading them back

  lemma ReaderArrow(isVtt: bool)
    ensures ArrowReader(TimingReader(isVtt))
  {
    forall line | TimingReader(isVtt)(line).Some? ensures Contains(line, "-->") {
      assert TimeRange(line, isVtt).Some?;
    }
  }

  lemma {:induction false} RangesRead(ls: seq<string>, isVtt: bool)
    ensures Ranges(ls, isVtt) == ReadAll(TimingReader(isVtt), ls)
    decreases |ls|
  {
    if ls != [] {
      RangesRead(ls[1..], isVtt);
    }
  }

  lemma {:induction false} ReadAllDrop(read: Reader, ls: seq<string>, k: nat)
    requires k <= |ls|
    ensures ReadAll(read, ls)[k..] == ReadAll(read, ls[k..])
    decreases k
  {
    if k > 0 {
      ReadAllDrop(read, ls[1..], k - 1);
      assert ls[1..][k - 1..] == ls[k..];
    }
  }

  /** A line holding `-->` is neither blank nor skipped. */
  lemma ArrowLineKept(line: string, isVtt: bool)
    requires Contains(line, "-->")
    ensures !IsBlank(line) && !Skippable(line, isVtt)
  {
    var k := IndexOf(line, "-->").value;
    assert line[k..k + 3] == "-->";
    assert line[k] == '-';
  }

  /** The text run of a block is all of its text lines. */
  lemma {:induction false} RunOfText(text: seq<string>, tail: seq<string>)
    requires forall i :: 0 <= i < |text| ==> !IsBlank(text[i])
    requires tail == [] || IsBlank(tail[0])
    ensures RunLength(text + tail) == |text|
    decreases |text|
  {
    if text == [] {
      assert text + tail == tail;
    } else {
      assert (text + tail)[1..] == text[1..] + tail;
      RunOfText(text[1..], tail);
    }
  }

  /** A leading blank line changes nothing. */
  lemma ScanAfterBlank(l: string, ls: seq<string>, isVtt: bool, read: Reader)
    requires IsBlank(l)
    ensures Scan([l] + ls, ReadAll(read, [l] + ls), isVtt) == Scan(ls, ReadAll(read, ls), isVtt)
  {
    assert ([l] + ls)[1..] == ls;
  }

  /** From a timing line that reads, the cue is the timing and the text run. */
  lemma TimedBlock(timing: string, text: seq<string>, tail: seq<string>, isVtt: bool, read: Reader)
    requires read(timing).Some?
    requires forall i :: 0 <= i < |text| ==> !IsBlank(text[i])
    requires tail == [] || IsBlank(tail[0])
    ensures Timed([timing] + text + tail, ReadAll(read, [timing] + text + tail), isVtt) ==
      [Cue(read(timing).value.0, read(timing).value.1, Join(NewLine, text))] + Scan(tail, ReadAll(read, tail), isVtt)
  {
    var ls := [timing] + (text + tail);
    assert [timing] + text + tail == ls;
    assert ls[1..] == text + tail;
    var rs := ReadAll(read, ls);
    RunOfText(text, tail);
    var n := |text|;
    assert (text + tail)[..n] == text;
    assert (text + tail)[n..] == tail;
    ReadAllDrop(read, text + tail, n);
  }

  /** An id line before a timing line is passed over. */
  lemma IdSkipped(id: string, body: seq<string>, isVtt: bool, read: Reader)
    requires !IsBlank(id) && Skippable(id, isVtt)
    ensures Scan([id] + body, ReadAll(read, [id] + body), isVtt) == Timed(body, ReadAll(read, body), isVtt)
  {
    assert ([id] + body)[1..] == body;
  }

  /** A scan that meets a timing line reads it as one. */
  lemma TimingTaken(body: seq<string>, isVtt: bool, read: Reader)
    requires body != [] && Contains(body[0], "-->")
    ensures Scan(body, ReadAll(read, body), isVtt) == Timed(body, ReadAll(read, body), isVtt)
  {
    ArrowLineKept(body[0], isVtt);
  }

  lemma BlockLinesTail(b: Block, tail: seq<string>)
    ensures BlockLines(b) + tail ==
      (if b.id.Some? then [b.id.value] else []) + ([b.timing] + b.text + tail)
  {
  }

  /** A block that reads back is one cue, followed by whatever follows it. */
  lemma BlockCues(b: Block, tail: seq<string>, isVtt: bool, read: Reader)
    requires ArrowReader(read)
    requires Fits(b, isVtt, read)
    requires tail == [] || IsBlank(tail[0])
    ensures Scan(BlockLines(b) + tail, ReadAll(read, BlockLines(b) + tail), isVtt) ==
      [Cue(read(b.timing).value.0, read(b.timing).value.1, Join(NewLine, b.text))] + Scan(tail, ReadAll(read, tail), isVtt)
  {
    var body := [b.timing] + b.text + tail;
    TimedBlock(b.timing, b.text, tail, isVtt, read);
    BlockLinesTail(b, tail);
    if b.id.Some? {
      IdSkipped(b.id.value, body, isVtt, read);
    } else {
      assert [] + body == body;
      TimingTaken(body, isVtt, read);
    }
  }

  lemma {:induction false} RenderRead(bs: seq<Block>, isVtt: bool, read: Reader)
    requires ArrowReader(read)
    requires AllFit(bs, isVtt, read)
    ensures Scan(Render(bs), ReadAll(read, Render(bs)), isVtt) == CuesBy(bs, isVtt, read)
    decreases |bs|
  {
    if |bs| == 1 {
      BlockCues(bs[0], [], isVtt, read);
      assert BlockLines(bs[0]) + [] == Render(bs);
    } else if |bs| > 1 {
      var rest := Render(bs[1..]);
      BlockCues(bs[0], [""] + rest, isVtt, read);
      RenderCons(bs);
      ScanAfterBlank("", rest, isVtt, read);
      AllFitTail(bs, isVtt, read);
      RenderRead(bs[1..], isVtt, read);
    }
  }

  lemma RenderCons(bs: seq<Block>)
    requires |bs| > 1
    ensures Render(bs) == BlockLines(bs[0]) + ([""] + Render(bs[1..]))
  {
    var head, rest := BlockLines(bs[0]), Render(bs[1..]);
    assert head + [""] + rest == head + ([""] + rest);
  }

  lemma AllFitTail(bs: seq<Block>, isVtt: bool, read: Reader)
    requires bs != [] && AllFit(bs, isVtt, read)
    ensures AllFit(bs[1..], isVtt, read)
  {
    forall i | 0 <= i < |bs[1..]| ensures Fits(bs[1..][i], isVtt, read) {
      assert bs[1..][i] == bs[i + 1];
    }
  }

  /** Reading the written blocks gives back their cues, in order. */
  lemma RenderRoundTrip(bs: seq<Block>, isVtt: bool)
    requires AllOk(bs, isVtt)
    ensures Cues(Render(bs), isVtt) == CuesOf(bs, isVtt)
  {
    ReaderArrow(isVtt);
    RangesRead(Render(bs), isVtt);
    RenderRead(bs, isVtt, TimingReader(isVtt));
  }

  /** SRT: the written blocks read back. */
  lemma SrtRoundTrip(bs: seq<Block>)
    requires AllOk(bs, false)
    ensures SrtCues(Render(bs)) == CuesOf(bs, false)
  {
    RenderRoundTrip(bs, false);
  }

  /** With `TimeRange`: a leading blank line changes nothing. */
  lemma CuesAfterBlank(l: string, ls: seq<string>, isVtt: bool)
    requires IsBlank(l)
    ensures Cues([l] + ls, isVtt) == Cues(ls, isVtt)
  {
    RangesRead([l] + ls, isVtt);
    RangesRead(ls, isVtt);
    ScanAfterBlank(l, ls, isVtt, TimingReader(isVtt));
  }

  /** VTT: the written blocks read back behind a `WEBVTT` header and a blank line. */
  lemma VttRoundTrip(header: string, bs: seq<Block>)
    requires StartsWithIgnoreCase(header, "WEBVTT")
    requires AllOk(bs, true)
    ensures VttCues([header, ""] + Render(bs)) == CuesOf(bs, true)
  {
    var ls := [header] + ([""] + Render(bs));
    assert [header, ""] + Render(bs) == ls;
    assert ls[1..] == [""] + Render(bs);
    CuesAfterBlank("", Render(bs), true);
    RenderRoundTrip(bs, true);
  }

  /** VTT: without a header the written blocks read back too, unless the first line looks like one. */
  lemma VttRoundTripNoHeader(bs: seq<Block>)
    requires AllOk(bs, true)
    requires !HasHeader(Render(bs))
    ensures VttCues(Render(bs)) == CuesOf(bs, true)
  {
    RenderRoundTrip(bs, true);
  }

  // ---------------------------------------------------------------- what is never produced

  /** The number of lines that read as a timing. */
  function Timings(rs: seq<Option<(nat, nat)>>): nat
    decreases |rs|
  {
    if rs == [] then 0 else (if rs[0].Some? then 1 else 0) + Timings(rs[1..])
  }

  lemma {:induction false} TimingsDrop(rs: seq<Option<(nat, nat)>>, k: nat)
    requires k <= |rs|
    ensures Timings(rs[k..]) <= Timings(rs)
    decreases k
  {
    if k > 0 {
      TimingsDrop(rs[1..], k - 1);
      assert rs[1..][k - 1..] == rs[k..];
    }
  }

  /** Every cue comes from its own timing line: there are no more cues than timing lines. */
  lemma {:induction false} ScanCount(ls: seq<string>, rs: seq<Option<(nat, nat)>>, isVtt: bool)
    requires |rs| == |ls|
    ensures |Scan(ls, rs, isVtt)| <= Timings(rs)
    decreases |ls|, 1
  {
    if ls != [] {
      if IsBlank(ls[0]) {
        ScanCount(ls[1..], rs[1..], isVtt);
      } else if Skippable(ls[0], isVtt) {
        TimedCount(ls[1..], rs[1..], isVtt);
      } else {
        TimedCount(ls, rs, isVtt);
      }
    }
  }

  lemma {:induction false} TimedCount(ls: seq<string>, rs: seq<Option<(nat, nat)>>, isVtt: bool)
    requires |rs| == |ls|
    ensures |Timed(ls, rs, isVtt)| <= Timings(rs)
    decreases |ls|, 0
  {
    if ls != [] {
      if rs[0].None? {
        ScanCount(ls[1..], rs[1..], isVtt);
      } else {
        var n := RunLength(ls[1..]);
        ScanCount(ls[1..][n..], rs[1..][n..], isVtt);
        TimingsDrop(rs[1..], n);
      }
    }
  }

  lemma ReadAllCons(read: Reader, l: string, ls: seq<string>)
    ensures ReadAll(read, [l] + ls) == [read(l)] + ReadAll(read, ls)
  {
    assert ([l] + ls)[1..] == ls;
  }

  /** A line that does not read as a timing where one is expected is passed over. */
  lemma TimedNone(l: string, ls: seq<string>, isVtt: bool, read: Reader)
    requires read(l).None?
    ensures Timed([l] + ls, ReadAll(read, [l] + ls), isVtt) == Scan(ls, ReadAll(read, ls), isVtt)
  {
    ReadAllCons(read, l, ls);
    assert ([l] + ls)[1..] == ls;
  }

  /** A line that does not read as a timing is passed over, or passes over the line after it. */
  lemma ScanNone(l: string, ls: seq<string>, isVtt: bool, read: Reader)
    requires read(l).None?
    ensures Scan([l] + ls, ReadAll(read, [l] + ls), isVtt) ==
      if !IsBlank(l) && Skippable(l, isVtt) then Timed(ls, ReadAll(read, ls), isVtt)
      else Scan(ls, ReadAll(read, ls), isVtt)
  {
    ReadAllCons(read, l, ls);
    assert ([l] + ls)[1..] == ls;
    if !IsBlank(l) && !Skippable(l, isVtt) {
      TimedNone(l, ls, isVtt, read);
    }
  }

  /** Lines none of which reads as a timing produce no cue: a broken block is dropped. */
  lemma {:induction false} NoTimingRead(ls: seq<string>, tail: seq<string>, isVtt: bool, read: Reader)
    requires ArrowReader(read)
    requires forall i :: 0 <= i < |ls| ==> read(ls[i]).None?
    requires tail == [] || IsBlank(tail[0])
    ensures Scan(ls + tail, ReadAll(read, ls + tail), isVtt) == Scan(tail, ReadAll(read, tail), isVtt)
    decreases |ls|
  {
    if ls == [] {
      assert ls + tail == tail;
    } else {
      var u := ls[1..] + tail;
      assert ls + tail == [ls[0]] + u;
      ScanNone(ls[0], u, isVtt, read);
      NoTimingRead(ls[1..], tail, isVtt, read);
      if !IsBlank(ls[0]) && Skippable(ls[0], isVtt) {
        if |ls| > 1 {
          assert u == [ls[1]] + (ls[2..] + tail);
          TimedNone(ls[1], ls[2..] + tail, isVtt, read);
          assert forall i :: 0 <= i < |ls[2..]| ==> ls[2..][i] == ls[i + 2];
          NoTimingRead(ls[2..], tail, isVtt, read);
        } else if tail != [] {
          assert u == [tail[0]] + tail[1..];
          if read(tail[0]).Some? {
            ArrowLineKept(tail[0], isVtt);
          }
          TimedNone(tail[0], tail[1..], isVtt, read);
          ScanNone(tail[0], tail[1..], isVtt, read);
        } else {
          assert u == [];
        }
      }
    }
  }

  /** With `TimeRange`: lines none of which reads as a timing produce no cue. */
  lemma NoTimingNoCue(ls: seq<string>, tail: seq<string>, isVtt: bool)
    requires forall i :: 0 <= i < |ls| ==> TimeRange(ls[i], isVtt).None?
    requires tail == [] || IsBlank(tail[0])
    ensures Cues(ls + tail, isVtt) == Cues(tail, isVtt)
  {
    ReaderArrow(isVtt);
    RangesRead(ls + tail, isVtt);
    RangesRead(tail, isVtt);
    NoTimingRead(ls, tail, isVtt, TimingReader(isVtt));
  }

  /** With `TimeRange`: no more cues than timing lines. */
  lemma CueCount(ls: seq<string>, isVtt: bool)
    ensures |Cues(ls, isVtt)| <= Timings(Ranges(ls, isVtt))
  {
    ScanCount(ls, Ranges(ls, isVtt), isVtt);
  }

  // ---------------------------------------------------------------- whole files

  /** Lines without line breaks in them. */
  predicate PlainLines(ls: seq<string>) {
    forall i :: 0 <= i < |ls| ==> NoBreaks(ls[i])
  }

  /** The last written line is a timing line or a text line, never empty. */
  lemma {:induction false} RenderedLast(bs: seq<Block>, isVtt: bool)
    requires AllOk(bs, isVtt) && bs != []
    ensures Render(bs) != [] && Render(bs)[|Render(bs)| - 1] != ""
    decreases |bs|
  {
    if |bs| == 1 {
      var b := bs[0];
      assert Fits(b, isVtt, TimingReader(isVtt));
      if b.text != [] {
        assert !IsBlank(b.text[|b.text| - 1]);
      } else {
        ReaderArrow(isVtt);
        assert Contains(b.timing, "-->");
      }
    } else {
      assert AllOk(bs[1..], isVtt) by {
        forall i | 0 <= i < |bs[1..]| ensures Fits(bs[1..][i], isVtt, TimingReader(isVtt)) {
          assert bs[1..][i] == bs[i + 1];
        }
      }
      RenderedLast(bs[1..], isVtt);
    }
  }

  /** An SRT file of written blocks, with or without a final line break, reads back. */
  lemma SrtFileRoundTrip(bs: seq<Block>, nl: string)
    requires IsNewLine(nl)
    requires AllOk(bs, false) && PlainLines(Render(bs))
    ensures Parse(Join(nl, Render(bs)), Srt) == CuesOf(bs, false)
    ensures bs != [] ==> Parse(Join(nl, Render(bs)) + nl, Srt) == CuesOf(bs, false)
  {
    if bs != [] {
      RenderedLast(bs, false);
      LinesOfTerminated(Render(bs), nl);
    }
    LinesOfJoin(Render(bs), nl);
    SrtRoundTrip(bs);
  }

  /** The lines of a VTT file with a header, a blank line and then the given lines. */
  lemma HeaderLines(header: string, ls: seq<string>, nl: string)
    requires IsNewLine(nl) && NoBreaks(header) && PlainLines(ls)
    requires ls != [] && ls[|ls| - 1] != ""
    ensures Lines(Join(nl, [header, ""] + ls)) == [header, ""] + ls
    ensures Lines(Join(nl, [header, ""] + ls) + nl) == [header, ""] + ls
  {
    var hs := [header, ""] + ls;
    forall i | 0 <= i < |hs| ensures NoBreaks(hs[i]) {
      if i >= 2 {
        assert hs[i] == ls[i - 2];
      }
    }
    assert hs[|hs| - 1] == ls[|ls| - 1];
    LinesOfJoin(hs, nl);
    LinesOfTerminated(hs, nl);
  }

  /** A VTT file of written blocks behind a `WEBVTT` header and a blank line reads back. */
  lemma VttFileRoundTrip(header: string, bs: seq<Block>, nl: string)
    requires IsNewLine(nl) && bs != []
    requires StartsWithIgnoreCase(header, "WEBVTT") && NoBreaks(header)
    requires AllOk(bs, true) && PlainLines(Render(bs))
    ensures Parse(Join(nl, [header, ""] + Render(bs)), Vtt) == CuesOf(bs, true)
  {
    RenderedLast(bs, true);
    HeaderLines(header, Render(bs), nl);
    VttRoundTrip(header, bs);
  }

  /** The same, with a line break after the last line. */
  lemma VttFileTerminated(header: string, bs: seq<Block>, nl: string)
    requires IsNewLine(nl) && bs != []
    requires StartsWithIgnoreCase(header, "WEBVTT") && NoBreaks(header)
    requires AllOk(bs, true) && PlainLines(Render(bs))
    ensures Parse(Join(nl, [header, ""] + Render(bs)) + nl, Vtt) == CuesOf(bs, true)
  {
    RenderedLast(bs, true);
    HeaderLines(header, Render(bs), nl);
    VttRoundTrip(header, bs);
  }

  /** A VTT file of written blocks without a header reads back, unless its first line looks like one. */
  lemma VttFileNoHeader(bs: seq<Block>, nl: string)
    requires IsNewLine(nl)
    requires AllOk(bs, true) && PlainLines(Render(bs)) && !HasHeader(Render(bs))
    ensures Parse(Join(nl, Render(bs)), Vtt) == CuesOf(bs, true)
    ensures bs != [] ==> Parse(Join(nl, Render(bs)) + nl, Vtt) == CuesOf(bs, true)
  {
    if bs != [] {
      RenderedLast(bs, true);
      LinesOfTerminated(Render(bs), nl);
    }
    LinesOfJoin(Render(bs), nl);
    VttRoundTripNoHeader(bs);
  }
}
