// The four subtitle files of `SubtitleServiceTests.cs`, read by the model:
// each file is the text of a few written blocks (SubtitleRoundTrip), so the
// round-trip lemmas give its cues.

module SubtitleExamples {
  import opened Wrappers
  import opened Strings
  import opened SubtitleTime
  import opened SubtitleService
  import opened SubtitleRoundTrip

  const T1 := "00:00:01,000 --> 00:00:02,500"
  const T2 := "00:00:03,000 --> 00:00:04,000"
  const T3 := "00:00:01,000 --> 00:00:02,000"
  const V1 := "00:01.000 --> 00:02.500"
  const V2 := "00:03.000 --> 00:04.000"

  // ---------------------------------------------------------------- timing lines

  lemma Srt1000()
    ensures Stamp(1000, ',') == "00:00:01,000"
  {
  }

  lemma Srt2000()
    ensures Stamp(2000, ',') == "00:00:02,000"
  {
  }

  lemma Srt2500()
    ensures Stamp(2500, ',') == "00:00:02,500"
  {
  }

  lemma Srt3000()
    ensures Stamp(3000, ',') == "00:00:03,000"
  {
  }

  lemma Srt4000()
    ensures Stamp(4000, ',') == "00:00:04,000"
  {
  }

  lemma Vtt1000()
    ensures MinuteStamp(1000, '.') == "00:01.000"
  {
  }

  lemma Vtt2500()
    ensures MinuteStamp(2500, '.') == "00:02.500"
  {
  }

  lemma Vtt3000()
    ensures MinuteStamp(3000, '.') == "00:03.000"
  {
  }

  lemma Vtt4000()
    ensures MinuteStamp(4000, '.') == "00:04.000"
  {
  }

  /** A timing line of two stamps that read. */
  lemma LineTiming(line: string, a: string, b: string, x: nat, y: nat, isVtt: bool)
    requires line == a + " --> " + b
    requires a != [] && b != [] && StampChars(a) && StampChars(b)
    requires TimeOf(a, isVtt) == Some(x) && TimeOf(b, isVtt) == Some(y)
    ensures TimeRange(line, isVtt) == Some((x, y))
  {
    TimingLine(a, b, "", isVtt);
    assert a + " --> " + b + "" == line;
  }

  lemma T1Parts()
    ensures NoBreaks(T1)
    ensures T1 == "00:00:01,000" + " --> " + "00:00:02,500"
    ensures StampChars("00:00:01,000") && StampChars("00:00:02,500")
  {
  }

  lemma T1Times()
    ensures TimeOf("00:00:01,000", false) == Some(1000) && TimeOf("00:00:02,500", false) == Some(2500)
  {
    Srt1000();
    SrtStampTime(1000);
    Srt2500();
    SrtStampTime(2500);
  }

  lemma T1Timing()
    ensures TimeRange(T1, false) == Some((1000, 2500))
  {
    T1Parts();
    T1Times();
    LineTiming(T1, "00:00:01,000", "00:00:02,500", 1000, 2500, false);
  }

  lemma T2Parts()
    ensures NoBreaks(T2)
    ensures T2 == "00:00:03,000" + " --> " + "00:00:04,000"
    ensures StampChars("00:00:03,000") && StampChars("00:00:04,000")
  {
  }

  lemma T2Times()
    ensures TimeOf("00:00:03,000", false) == Some(3000) && TimeOf("00:00:04,000", false) == Some(4000)
  {
    Srt3000();
    SrtStampTime(3000);
    Srt4000();
    SrtStampTime(4000);
  }

  lemma T2Timing()
    ensures TimeRange(T2, false) == Some((3000, 4000))
  {
    T2Parts();
    T2Times();
    LineTiming(T2, "00:00:03,000", "00:00:04,000", 3000, 4000, false);
  }

  lemma T3Parts()
    ensures NoBreaks(T3)
    ensures T3 == "00:00:01,000" + " --> " + "00:00:02,000"
    ensures StampChars("00:00:01,000") && StampChars("00:00:02,000")
  {
  }

  lemma T3Times()
    ensures TimeOf("00:00:01,000", false) == Some(1000) && TimeOf("00:00:02,000", false) == Some(2000)
  {
    Srt1000();
    SrtStampTime(1000);
    Srt2000();
    SrtStampTime(2000);
  }

  lemma T3Timing()
    ensures TimeRange(T3, false) == Some((1000, 2000))
  {
    T3Parts();
    T3Times();
    LineTiming(T3, "00:00:01,000", "00:00:02,000", 1000, 2000, false);
  }

  lemma V1Parts()
    ensures NoBreaks(V1)
    ensures V1 == "00:01.000" + " --> " + "00:02.500"
    ensures StampChars("00:01.000") && StampChars("00:02.500")
  {
  }

  lemma V1Times()
    ensures TimeOf("00:01.000", true) == Some(1000) && TimeOf("00:02.500", true) == Some(2500)
  {
    Vtt1000();
    MinuteStampTime(1000);
    Vtt2500();
    MinuteStampTime(2500);
  }

  lemma V1Timing()
    ensures TimeRange(V1, true) == Some((1000, 2500))
  {
    V1Parts();
    V1Times();
    LineTiming(V1, "00:01.000", "00:02.500", 1000, 2500, true);
  }

  lemma V2Parts()
    ensures NoBreaks(V2)
    ensures V2 == "00:03.000" + " --> " + "00:04.000"
    ensures StampChars("00:03.000") && StampChars("00:04.000")
  {
  }

  lemma V2Times()
    ensures TimeOf("00:03.000", true) == Some(3000) && TimeOf("00:04.000", true) == Some(4000)
  {
    Vtt3000();
    MinuteStampTime(3000);
    Vtt4000();
    MinuteStampTime(4000);
  }

  lemma V2Timing()
    ensures TimeRange(V2, true) == Some((3000, 4000))
  {
    V2Parts();
    V2Times();
    LineTiming(V2, "00:03.000", "00:04.000", 3000, 4000, true);
  }

  // ---------------------------------------------------------------- blocks

  lemma NotBlank(s: string)
    requires s != [] && !IsWhiteSpace(s[0])
    ensures !IsBlank(s)
  {
  }

  lemma BlockFits(id: Option<string>, timing: string, text: seq<string>, isVtt: bool)
    requires TimeRange(timing, isVtt).Some?
    requires id.Some? ==> !IsBlank(id.value) && Skippable(id.value, isVtt)
    requires forall i :: 0 <= i < |text| ==> !IsBlank(text[i])
    ensures Fits(Block(id, timing, text), isVtt, TimingReader(isVtt))
  {
  }

  // ---------------------------------------------------------------- ParseSrt_Basic

  function BasicBlocks(t1: string, t2: string): seq<Block> {
    [Block(Some("1"), t1, ["Hello"]), Block(Some("2"), t2, ["World"])]
  }

  lemma BasicLines(t1: string, t2: string)
    requires NoBreaks(t1) && NoBreaks(t2)
    ensures Render(BasicBlocks(t1, t2)) == ["1", t1, "Hello", "", "2", t2, "World"]
    ensures PlainLines(Render(BasicBlocks(t1, t2)))
  {
    var bs := BasicBlocks(t1, t2);
    assert bs[1..] == [bs[1]];
    assert Render(bs) == BlockLines(bs[0]) + [""] + BlockLines(bs[1]);
  }

  lemma BasicFit(t1: string, t2: string, read: Reader)
    requires read(t1) == Some((1000, 2500)) && read(t2) == Some((3000, 4000))
    ensures AllFit(BasicBlocks(t1, t2), false, read)
    ensures CuesBy(BasicBlocks(t1, t2), false, read) == [Cue(1000, 2500, "Hello"), Cue(3000, 4000, "World")]
  {
    var bs := BasicBlocks(t1, t2);
    NotBlank("1");
    NotBlank("2");
    NotBlank("Hello");
    NotBlank("World");
    assert AllDigits("1") && AllDigits("2");
    assert bs[1..] == [bs[1]];
    assert bs[1..][1..] == [];
    assert Join(NewLine, ["Hello"]) == "Hello";
    assert Join(NewLine, ["World"]) == "World";
    assert CuesBy(bs[1..], false, read) == [Cue(3000, 4000, "World")];
  }

  /** Two SRT blocks with an index line each. */
  lemma SrtBasicShape(t1: string, t2: string)
    requires TimeRange(t1, false) == Some((1000, 2500)) && TimeRange(t2, false) == Some((3000, 4000))
    requires NoBreaks(t1) && NoBreaks(t2)
    ensures Parse(Join("\n", ["1", t1, "Hello", "", "2", t2, "World"]), Srt) ==
      [Cue(1000, 2500, "Hello"), Cue(3000, 4000, "World")]
  {
    BasicLines(t1, t2);
    assert TimingReader(false)(t1) == TimeRange(t1, false);
    assert TimingReader(false)(t2) == TimeRange(t2, false);
    BasicFit(t1, t2, TimingReader(false));
    SrtFileRoundTrip(BasicBlocks(t1, t2), "\n");
  }

  /** `ParseSrt_Basic`: two cues, the first from 1000 ms to 2500 ms reading `Hello`. */
  lemma SrtBasic(lines: seq<string>)
    requires lines == ["1", T1, "Hello", "", "2", T2, "World"]
    ensures Parse(Join("\n", lines), Srt) == [Cue(1000, 2500, "Hello"), Cue(3000, 4000, "World")]
  {
    T1Parts();
    T2Parts();
    T1Timing();
    T2Timing();
    SrtBasicShape(T1, T2);
  }

  // ---------------------------------------------------------------- ParseVtt_WithHeaderAndCueId

  function HeaderBlocks(v1: string, v2: string): seq<Block> {
    [Block(Some("cue-1"), v1, ["Hello"]), Block(None, v2, ["World"])]
  }

  lemma HeaderBlockLines(v1: string, v2: string)
    requires NoBreaks(v1) && NoBreaks(v2)
    ensures Render(HeaderBlocks(v1, v2)) == ["cue-1", v1, "Hello", "", v2, "World"]
    ensures PlainLines(Render(HeaderBlocks(v1, v2)))
    ensures ["WEBVTT", ""] + Render(HeaderBlocks(v1, v2)) == ["WEBVTT", "", "cue-1", v1, "Hello", "", v2, "World"]
  {
    var bs := HeaderBlocks(v1, v2);
    assert bs[1..] == [bs[1]];
    assert Render(bs) == BlockLines(bs[0]) + [""] + BlockLines(bs[1]);
  }

  lemma CueIdSkipped()
    ensures !IsBlank("cue-1") && Skippable("cue-1", true)
  {
    NotBlank("cue-1");
    var id := "cue-1";
    forall k | 0 <= k <= |id| ensures !OccursAt(id, "-->", k) {
      if k + 3 <= |id| {
        assert id[k..k + 3][0] == id[k] != '-';
      }
    }
  }

  lemma HeaderFit(v1: string, v2: string, read: Reader)
    requires read(v1) == Some((1000, 2500)) && read(v2) == Some((3000, 4000))
    ensures AllFit(HeaderBlocks(v1, v2), true, read)
    ensures CuesBy(HeaderBlocks(v1, v2), true, read) == [Cue(1000, 2500, "Hello"), Cue(3000, 4000, "World")]
  {
    var bs := HeaderBlocks(v1, v2);
    CueIdSkipped();
    NotBlank("Hello");
    NotBlank("World");
    assert bs[1..] == [bs[1]];
    assert bs[1..][1..] == [];
    assert Join(NewLine, ["Hello"]) == "Hello";
    assert Join(NewLine, ["World"]) == "World";
    assert CuesBy(bs[1..], true, read) == [Cue(3000, 4000, "World")];
  }

  lemma HeaderWord()
    ensures StartsWithIgnoreCase("WEBVTT", "WEBVTT") && NoBreaks("WEBVTT")
  {
    assert "WEBVTT"[..6] == "WEBVTT";
  }

  lemma HeaderShape(v1: string, v2: string)
    requires TimeRange(v1, true) == Some((1000, 2500)) && TimeRange(v2, true) == Some((3000, 4000))
    requires NoBreaks(v1) && NoBreaks(v2)
    ensures Parse(Join("\n", ["WEBVTT", "", "cue-1", v1, "Hello", "", v2, "World"]), Vtt) ==
      [Cue(1000, 2500, "Hello"), Cue(3000, 4000, "World")]
  {
    HeaderBlockLines(v1, v2);
    assert TimingReader(true)(v1) == TimeRange(v1, true);
    assert TimingReader(true)(v2) == TimeRange(v2, true);
    HeaderFit(v1, v2, TimingReader(true));
    HeaderWord();
    VttFileRoundTrip("WEBVTT", HeaderBlocks(v1, v2), "\n");
  }

  /** `ParseVtt_WithHeaderAndCueId`: the header and the cue id are skipped; two cues. */
  lemma VttWithHeader(lines: seq<string>)
    requires lines == ["WEBVTT", "", "cue-1", V1, "Hello", "", V2, "World"]
    ensures Parse(Join("\n", lines), Vtt) == [Cue(1000, 2500, "Hello"), Cue(3000, 4000, "World")]
  {
    V1Parts();
    V2Parts();
    V1Timing();
    V2Timing();
    HeaderShape(V1, V2);
  }

  // ---------------------------------------------------------------- ParseSrt_MultilineText_IsPreserved

  function MultilineBlocks(t1: string): seq<Block> {
    [Block(Some("1"), t1, ["Hello", "World"])]
  }

  lemma MultilineFit(t1: string, read: Reader)
    requires read(t1) == Some((1000, 2500))
    ensures AllFit(MultilineBlocks(t1), false, read)
    ensures CuesBy(MultilineBlocks(t1), false, read) == [Cue(1000, 2500, "Hello\nWorld")]
  {
    NotBlank("1");
    NotBlank("Hello");
    NotBlank("World");
    assert AllDigits("1");
    JoinCons(NewLine, "Hello", ["World"]);
    assert Join(NewLine, ["World"]) == "World";
    assert "Hello" + NewLine + "World" == "Hello\nWorld";
    assert MultilineBlocks(t1)[1..] == [];
  }

  lemma MultilineLines(t1: string)
    requires NoBreaks(t1)
    ensures Render(MultilineBlocks(t1)) == ["1", t1, "Hello", "World"]
    ensures PlainLines(Render(MultilineBlocks(t1)))
  {
  }

  lemma MultilineShape(t1: string)
    requires TimeRange(t1, false) == Some((1000, 2500)) && NoBreaks(t1)
    ensures Parse(Join("\n", ["1", t1, "Hello", "World"]) + "\n", Srt) == [Cue(1000, 2500, "Hello\nWorld")]
  {
    var bs := MultilineBlocks(t1);
    MultilineLines(t1);
    assert TimingReader(false)(t1) == TimeRange(t1, false);
    MultilineFit(t1, TimingReader(false));
    SrtFileRoundTrip(bs, "\n");
  }

  /** `ParseSrt_MultilineText_IsPreserved`: one cue whose text keeps its line break. */
  lemma SrtMultiline(lines: seq<string>)
    requires lines == ["1", T1, "Hello", "World"]
    ensures Parse(Join("\n", lines) + "\n", Srt) == [Cue(1000, 2500, "Hello\nWorld")]
  {
    T1Parts();
    T1Timing();
    MultilineShape(T1);
  }

  // ---------------------------------------------------------------- ParseVtt_WithoutHours_Works

  function ShortBlocks(v1: string): seq<Block> {
    [Block(None, v1, ["Hello"])]
  }

  lemma ShortFit(v1: string, read: Reader)
    requires read(v1) == Some((1000, 2500))
    ensures AllFit(ShortBlocks(v1), true, read)
    ensures CuesBy(ShortBlocks(v1), true, read) == [Cue(1000, 2500, "Hello")]
  {
    NotBlank("Hello");
    assert Join(NewLine, ["Hello"]) == "Hello";
    assert ShortBlocks(v1)[1..] == [];
  }

  lemma ShortLines(v1: string)
    requires NoBreaks(v1)
    ensures Render(ShortBlocks(v1)) == [v1, "Hello"]
    ensures PlainLines(Render(ShortBlocks(v1)))
  {
  }

  lemma ShortShape(v1: string)
    requires TimeRange(v1, true) == Some((1000, 2500)) && NoBreaks(v1)
    requires !StartsWithIgnoreCase(v1, "WEBVTT")
    ensures Parse(Join("\n", [v1, "Hello"]), Vtt) == [Cue(1000, 2500, "Hello")]
  {
    var bs := ShortBlocks(v1);
    ShortLines(v1);
    assert TimingReader(true)(v1) == TimeRange(v1, true);
    ShortFit(v1, TimingReader(true));
    VttFileNoHeader(bs, "\n");
  }

  lemma V1NoHeader()
    ensures !StartsWithIgnoreCase(V1, "WEBVTT")
  {
    ToUpperAt(V1[..6], 0);
    ToUpperAt("WEBVTT", 0);
  }

  /** `ParseVtt_WithoutHours_Works`: `MM:SS.fff` times, no header; one cue from 1000 ms to 2500 ms. */
  lemma VttWithoutHours(lines: seq<string>)
    requires lines == [V1, "Hello"]
    ensures Parse(Join("\n", lines), Vtt) == [Cue(1000, 2500, "Hello")]
  {
    V1Parts();
    V1Timing();
    V1NoHeader();
    ShortShape(V1);
  }

  // ---------------------------------------------------------------- the player's one-cue file

  function SingleBlocks(t: string): seq<Block> {
    [Block(Some("1"), t, ["Hello"])]
  }

  lemma SingleFit(t: string, read: Reader)
    requires read(t) == Some((1000, 2000))
    ensures AllFit(SingleBlocks(t), false, read)
    ensures CuesBy(SingleBlocks(t), false, read) == [Cue(1000, 2000, "Hello")]
  {
    NotBlank("1");
    NotBlank("Hello");
    assert AllDigits("1");
    assert Join(NewLine, ["Hello"]) == "Hello";
    assert SingleBlocks(t)[1..] == [];
  }

  lemma SingleLines(t: string)
    requires NoBreaks(t)
    ensures Render(SingleBlocks(t)) == ["1", t, "Hello"]
    ensures PlainLines(Render(SingleBlocks(t)))
  {
  }

  lemma SingleShape(t: string)
    requires TimeRange(t, false) == Some((1000, 2000)) && NoBreaks(t)
    ensures Parse(Join("\n", ["1", t, "Hello"]), Srt) == [Cue(1000, 2000, "Hello")]
  {
    SingleLines(t);
    assert TimingReader(false)(t) == TimeRange(t, false);
    SingleFit(t, TimingReader(false));
    SrtFileRoundTrip(SingleBlocks(t), "\n");
  }

  /** The file both `PlayerViewModelTests` load: one cue from 1000 ms to 2000 ms reading `Hello`. */
  lemma SrtSingle(lines: seq<string>)
    requires lines == ["1", T3, "Hello"]
    ensures Parse(Join("\n", lines), Srt) == [Cue(1000, 2000, "Hello")]
  {
    T3Parts();
    T3Timing();
    SingleShape(T3);
  }
}
