/**
 * The player screen: the subtitle rows built from a primary and a
 * secondary track, the row that is active at the playback position, the
 * mask that hides one or both texts, and the commands that seek, save a
 * sentence and shift the primary track.
 */
module Player {
  import opened Wrappers
  import opened Strings
  import opened Ints
  import opened Domain
  import opened SubtitleService

  // ------------------------------------------------------------------ masks

  /** `ToggleMask`'s cycle: none, hide secondary, hide primary, blind. */
  function NextMask(m: MaskMode): (r: MaskMode)
    ensures r != m
  {
    match m
    case Unmasked => HideSecondary
    case HideSecondary => HidePrimary
    case HidePrimary => Blind
    case Blind => Unmasked
  }

  /** Toggling visits every mode and is back after four presses. */
  lemma MaskCycle(m: MaskMode)
    ensures NextMask(NextMask(NextMask(NextMask(m)))) == m
    ensures {m, NextMask(m), NextMask(NextMask(m)), NextMask(NextMask(NextMask(m)))}
         == {Unmasked, HideSecondary, HidePrimary, Blind}
  {
  }

  predicate PrimaryMasked(m: MaskMode) {
    m == HidePrimary || m == Blind
  }

  predicate SecondaryMasked(m: MaskMode) {
    m == HideSecondary || m == Blind
  }

  /** Six bullets, shown in place of a masked text. */
  const Dots: string := "\U{2022}\U{2022}\U{2022}\U{2022}\U{2022}\U{2022}"

  /** `MaskText`: a missing or empty text shows nothing, a masked one shows bullets. */
  function MaskText(text: Option<string>, masked: bool): (r: string)
    ensures r == "" <==> IsNullOrEmpty(text)
    ensures !IsNullOrEmpty(text) && masked ==> r == Dots
    ensures !masked ==> r == OrEmpty(text)
  {
    if IsNullOrEmpty(text) then "" else if masked then Dots else text.value
  }

  // ------------------------------------------------------------------- rows

  /** `SubtitleRowViewModel`, without its seek command. */
  datatype Row = Row(start: int, end: int, primaryText: string, secondaryText: Option<string>)

  /** A secondary cue starts within 500 ms of `start`. */
  predicate Near(c: Cue, start: int) {
    -500 <= c.start - start <= 500
  }

  /** `FirstOrDefault` over the secondary cues: the first that starts near `start`. */
  function FirstNear(secondary: seq<Cue>, start: int): (r: Option<nat>)
    ensures r.Some? ==> r.value < |secondary| && Near(secondary[r.value], start)
                        && forall j :: 0 <= j < r.value ==> !Near(secondary[j], start)
    ensures r.None? ==> forall j :: 0 <= j < |secondary| ==> !Near(secondary[j], start)
    decreases |secondary|
  {
    if secondary == [] then None
    else if Near(secondary[0], start) then Some(0)
    else match FirstNear(secondary[1..], start)
      case None => None
      case Some(j) => Some(j + 1)
  }

  /** The secondary text of the row for primary cue number `i`: by index, else by start time. */
  function SecondaryFor(i: nat, p: Cue, secondary: seq<Cue>): Option<string> {
    if i < |secondary| then Some(secondary[i].text)
    else if |secondary| > 0 then
      match FirstNear(secondary, p.start)
      case Some(j) => Some(secondary[j].text)
      case None => None
    else None
  }

  function RowFor(i: nat, p: Cue, secondary: seq<Cue>): Row {
    Row(p.start, p.end, p.text, SecondaryFor(i, p, secondary))
  }

  /** The rows `RebuildRows` lays out: one per primary cue, in order. */
  predicate RowsOf(rows: seq<Row>, primary: seq<Cue>, secondary: seq<Cue>) {
    |rows| == |primary| && forall i :: 0 <= i < |rows| ==> rows[i] == RowFor(i, primary[i], secondary)
  }

  /**
   * What a row built from primary cue `i` holds: the cue's own times and
   * text; the secondary cue with the same index when there is one;
   * otherwise the first secondary cue starting within 500 ms; otherwise no
   * secondary text.
   */
  lemma RowContents(rows: seq<Row>, primary: seq<Cue>, secondary: seq<Cue>, i: int)
    requires RowsOf(rows, primary, secondary) && 0 <= i < |rows|
    ensures rows[i].start == primary[i].start && rows[i].end == primary[i].end
    ensures rows[i].primaryText == primary[i].text
    ensures i < |secondary| ==> rows[i].secondaryText == Some(secondary[i].text)
    ensures i >= |secondary| && rows[i].secondaryText.Some? ==>
              exists j :: 0 <= j < |secondary| && Near(secondary[j], primary[i].start)
                          && rows[i].secondaryText == Some(secondary[j].text)
                          && forall k :: 0 <= k < j ==> !Near(secondary[k], primary[i].start)
    ensures i >= |secondary| && rows[i].secondaryText.None? ==>
              forall j :: 0 <= j < |secondary| ==> !Near(secondary[j], primary[i].start)
  {
    var r := FirstNear(secondary, primary[i].start);
    if i >= |secondary| && r.Some? {
      var j := r.value;
      assert 0 <= j < |secondary| && Near(secondary[j], primary[i].start);
    }
  }

  // ------------------------------------------------------------- active row

  /** The row's time span, shifted by the primary offset, holds `t`. */
  predicate Covers(row: Row, t: int, offset: int) {
    row.start + offset <= t < row.end + offset
  }

  /** The first row whose shifted span holds `t`. */
  function CoveringRow(rows: seq<Row>, t: int, offset: int): (r: Option<nat>)
    ensures r.Some? ==> r.value < |rows| && Covers(rows[r.value], t, offset)
                        && forall j :: 0 <= j < r.value ==> !Covers(rows[j], t, offset)
    ensures r.None? ==> forall j :: 0 <= j < |rows| ==> !Covers(rows[j], t, offset)
    decreases |rows|
  {
    if rows == [] then None
    else if Covers(rows[0], t, offset) then Some(0)
    else match CoveringRow(rows[1..], t, offset)
      case None => None
      case Some(j) => Some(j + 1)
  }

  /**
   * `UpdateActiveIndex`'s outcome: -1 without rows, the first covering row,
   * or, when no row covers `t`, the index that was active before.
   */
  function ActiveAfter(rows: seq<Row>, t: int, offset: int, previous: int): (r: int)
    ensures rows == [] ==> r == -1
    ensures r == -1 || r == previous || (0 <= r < |rows| && Covers(rows[r], t, offset))
  {
    if rows == [] then -1
    else match CoveringRow(rows, t, offset)
      case Some(i) => i
      case None => previous
  }

  /** Between rows (a gap), the previously active row stays active. */
  lemma ActiveAfterGap(rows: seq<Row>, t: int, offset: int, previous: int)
    requires forall j :: 0 <= j < |rows| ==> !Covers(rows[j], t, offset)
    ensures ActiveAfter(rows, t, offset, previous) == if rows == [] then -1 else previous
  {
  }

  /**
   * Whenever the active index is a row, the position lies in that row's
   * shifted span, and in no earlier row's.
   */
  lemma ActiveAfterCovers(rows: seq<Row>, t: int, offset: int, previous: int)
    requires exists j :: 0 <= j < |rows| && Covers(rows[j], t, offset)
    ensures var a := ActiveAfter(rows, t, offset, previous);
            0 <= a < |rows| && Covers(rows[a], t, offset)
            && forall j :: 0 <= j < a ==> !Covers(rows[j], t, offset)
  {
  }

  /** The text shown for the active row, or nothing when no row is active. */
  function Displayed(rows: seq<Row>, index: int, primarySide: bool, mode: MaskMode): (r: string)
    ensures !(0 <= index < |rows|) ==> r == ""
    ensures 0 <= index < |rows| && primarySide ==>
              r == MaskText(Some(rows[index].primaryText), PrimaryMasked(mode))
    ensures 0 <= index < |rows| && !primarySide ==>
              r == MaskText(rows[index].secondaryText, SecondaryMasked(mode))
  {
    if 0 <= index < |rows| then
      if primarySide then MaskText(Some(rows[index].primaryText), PrimaryMasked(mode))
      else MaskText(rows[index].secondaryText, SecondaryMasked(mode))
    else ""
  }

  /** Blind hides both texts; a mode that masks neither side shows them as they are. */
  lemma DisplayedMasks(rows: seq<Row>, index: int, mode: MaskMode)
    requires 0 <= index < |rows|
    ensures mode == Blind ==>
              Displayed(rows, index, true, mode) in {"", Dots}
              && Displayed(rows, index, false, mode) in {"", Dots}
    ensures mode == Unmasked ==>
              Displayed(rows, index, true, mode) == rows[index].primaryText
              && Displayed(rows, index, false, mode) == OrEmpty(rows[index].secondaryText)
    ensures mode == HideSecondary ==> Displayed(rows, index, true, mode) == rows[index].primaryText
    ensures mode == HidePrimary ==>
              Displayed(rows, index, false, mode) == OrEmpty(rows[index].secondaryText)
  {
  }

  // --------------------------------------------------------------- formats

  /**
   * A directory separator as `Path.GetExtension` sees it on Windows, where
   * both '/' and '\\' separate; on Android and iOS only '/' does.
   */
  predicate IsSeparator(c: char) {
    c == '/' || c == '\\'
  }

  /** Where `Path.GetExtension` finds its dot: the last '.' after the last directory separator. */
  function ExtensionStart(path: string): (r: Option<nat>)
    ensures r.Some? ==> r.value < |path| && path[r.value] == '.'
                        && forall j :: r.value < j < |path| ==> path[j] != '.' && !IsSeparator(path[j])
    decreases |path|
  {
    if path == [] then None
    else
      var last := path[|path| - 1];
      if last == '.' then Some(|path| - 1)
      else if IsSeparator(last) then None
      else ExtensionStart(path[..|path| - 1])
  }

  /** A dot followed only by ordinary characters is the one `ExtensionStart` finds. */
  lemma {:induction false} ExtensionStartAt(path: string, i: nat)
    requires i < |path| && path[i] == '.'
    requires forall j :: i < j < |path| ==> path[j] != '.' && !IsSeparator(path[j])
    ensures ExtensionStart(path) == Some(i)
    decreases |path|
  {
    if i < |path| - 1 {
      var init := path[..|path| - 1];
      ExtensionStartAt(init, i);
    }
  }

  /**
   * `Path.GetExtension` as on Windows: from the dot to the end, or "" with no
   * dot or a trailing dot.
   */
  function Extension(path: string): string {
    match ExtensionStart(path)
    case None => ""
    case Some(i) => if i == |path| - 1 then "" else path[i..]
  }

  /** `GuessFormat`. */
  function GuessFormat(path: string): (r: Format)
    ensures r != Other
  {
    if EqualsIgnoreCase(Extension(path), ".vtt") then Vtt else Srt
  }

  lemma UpperVtt()
    ensures ToUpper(".vtt") == ".VTT"
  {
  }

  /** A file is read as WebVTT exactly when its name ends in ".vtt", in any case. */
  lemma GuessFormatVtt(path: string)
    ensures GuessFormat(path) == Vtt <==> EndsWithIgnoreCase(path, ".vtt")
    ensures GuessFormat(path) != Other
  {
    UpperVtt();
    var e := Extension(path);
    if EqualsIgnoreCase(e, ".vtt") {
      assert |e| == 4;
      var i := ExtensionStart(path).value;
      assert path[|path| - 4..] == e;
    }
    if EndsWithIgnoreCase(path, ".vtt") {
      var n := |path| - 4;
      var s := path[n..];
      assert ToUpper(s) == ".VTT";
      forall k | 0 <= k < 4
        ensures ToUpperChar(s[k]) == ".VTT"[k]
      {
        ToUpperAt(s, k);
      }
      assert s[0] == '.';
      forall j | n < j < |path|
        ensures path[j] != '.' && !IsSeparator(path[j])
      {
        assert path[j] == s[j - n];
      }
      ExtensionStartAt(path, n);
      assert e == s;
    }
  }

  // ------------------------------------------------------------ effects

  /** Calls the view model makes into the playback service, the learning store and the notifier. */
  datatype Effect =
    | SeekCalled(position: int)
    | PlayCalled
    | PauseCalled
    | SentenceAdded(sentence: SavedSentence)
    | ToastShown(title: string, message: string)

  /** The sentence `SaveCurrentSentenceAsync` stores for a row, shifted by the primary offset. */
  function SentenceOf(row: Row, offset: int, mediaItemId: string, id: string, now: int): (s: SavedSentence)
    ensures s.end - s.start == row.end - row.start
    ensures s.start - row.start == offset && s.mediaItemId == mediaItemId
    ensures s.primaryText == row.primaryText && s.secondaryText == row.secondaryText
    ensures !s.deleted && s.id == id && s.updatedAt == now
  {
    SavedSentence(id, mediaItemId, row.start + offset, row.end + offset,
                  row.primaryText, row.secondaryText, now, false)
  }

  /** A saved sentence spans exactly the time during which its row is active. */
  lemma SentenceCoversRow(row: Row, offset: int, mediaItemId: string, id: string, now: int, t: int)
    ensures var s := SentenceOf(row, offset, mediaItemId, id, now);
            s.start <= t < s.end <==> Covers(row, t, offset)
  {
  }

  /** The `PlaybackState` properties whose change the view model hears about. */
  datatype StateProperty = PositionProperty | MaskModeProperty | OtherProperty

  // -------------------------------------------------------------- the view model

  class PlayerViewModel {
    const state: PlaybackState
    var primary: seq<Cue>
    var secondary: seq<Cue>
    var rows: seq<Row>
    var activeIndex: int
    var primaryOffsetMs: Int32
    var secondaryOffsetMs: Int32
    /** Everything handed to the playback service, the learning store and the notifier, in order. */
    var effects: seq<Effect>

    constructor(state: PlaybackState)
      ensures this.state == state && primary == [] && secondary == [] && rows == []
      ensures activeIndex == -1 && primaryOffsetMs == 0 && secondaryOffsetMs == 0 && effects == []
    {
      this.state := state;
      primary := [];
      secondary := [];
      rows := [];
      activeIndex := -1;
      primaryOffsetMs := 0;
      secondaryOffsetMs := 0;
      effects := [];
    }

    function DisplayedPrimaryText(): string
      reads this, state
    {
      Displayed(rows, activeIndex, true, state.maskMode)
    }

    function DisplayedSecondaryText(): string
      reads this, state
    {
      Displayed(rows, activeIndex, false, state.maskMode)
    }

    method TogglePlayPause()
      modifies this`effects
      ensures effects == old(effects) + [if state.isPlaying then PauseCalled else PlayCalled]
    {
      if state.isPlaying {
        effects := effects + [PauseCalled];
      } else {
        effects := effects + [PlayCalled];
      }
    }

    /** `RebuildRows`: one row per primary cue, paired with a secondary text. */
    method RebuildRows()
      modifies this`rows
      ensures RowsOf(rows, primary, secondary)
    {
      rows := [];
      if |primary| == 0 {
        return;
      }
      var i := 0;
      while i < |primary|
        invariant 0 <= i <= |primary|
        invariant RowsOf(rows, primary[..i], secondary)
      {
        var p := primary[i];
        var sText: Option<string> := None;
        if i < |secondary| {
          sText := Some(secondary[i].text);
        } else if |secondary| > 0 {
          var m := FirstNear(secondary, p.start);
          if m.Some? {
            sText := Some(secondary[m.value].text);
          }
        }
        rows := rows + [Row(p.start, p.end, p.text, sText)];
        i := i + 1;
      }
      assert primary[..i] == primary;
    }

    /** `UpdateActiveIndex`: the first row covering the position, scanning in order. */
    method UpdateActiveIndex()
      modifies this`activeIndex
      ensures activeIndex == ActiveAfter(rows, state.position, primaryOffsetMs as int, old(activeIndex))
    {
      if |rows| == 0 {
        activeIndex := -1;
        return;
      }
      var t := state.position;
      var offset := primaryOffsetMs as int;
      for i := 0 to |rows|
        invariant forall j :: 0 <= j < i ==> !Covers(rows[j], t, offset)
      {
        var row := rows[i];
        if t >= row.start + offset && t < row.end + offset {
          if activeIndex != i {
            activeIndex := i;
          }
          CoveringFirst(rows, t, offset, i);
          return;
        }
      }
      CoveringNone(rows, t, offset);
    }

    /** `LoadPrimarySubtitleAsync`, given the picked file's path and text, or nothing. */
    method LoadPrimarySubtitle(picked: Option<(string, string)>)
      modifies this`primary, this`rows, this`activeIndex
      ensures picked.None? ==> primary == old(primary) && rows == old(rows) && activeIndex == old(activeIndex)
      ensures picked.Some? ==> primary == Parse(picked.value.1, GuessFormat(picked.value.0))
      ensures picked.Some? ==> RowsOf(rows, primary, secondary)
      ensures picked.Some? ==> activeIndex == ActiveAfter(rows, state.position, primaryOffsetMs as int, old(activeIndex))
    {
      if picked.None? {
        return;
      }
      var (path, text) := picked.value;
      primary := ParseAsync(text, GuessFormat(path));
      RebuildRows();
      UpdateActiveIndex();
    }

    /** `LoadSecondarySubtitleAsync`, given the picked file's path and text, or nothing. */
    method LoadSecondarySubtitle(picked: Option<(string, string)>)
      modifies this`secondary, this`rows, this`activeIndex
      ensures picked.None? ==> secondary == old(secondary) && rows == old(rows) && activeIndex == old(activeIndex)
      ensures picked.Some? ==> secondary == Parse(picked.value.1, GuessFormat(picked.value.0))
      ensures picked.Some? ==> RowsOf(rows, primary, secondary)
      ensures picked.Some? ==> activeIndex == ActiveAfter(rows, state.position, primaryOffsetMs as int, old(activeIndex))
    {
      if picked.None? {
        return;
      }
      var (path, text) := picked.value;
      secondary := ParseAsync(text, GuessFormat(path));
      RebuildRows();
      UpdateActiveIndex();
    }

    /** `SeekToRow`: seek to the row's shifted start, then play. */
    method SeekToRow(row: Row)
      modifies this`effects
      ensures effects == old(effects) + [SeekCalled(row.start + primaryOffsetMs as int), PlayCalled]
    {
      var t := row.start + primaryOffsetMs as int;
      effects := effects + [SeekCalled(t)];
      effects := effects + [PlayCalled];
    }

    method ToggleMask()
      modifies state`maskMode
      ensures state.maskMode == NextMask(old(state.maskMode))
    {
      state.maskMode := NextMask(state.maskMode);
    }

    /**
     * `SaveCurrentSentenceAsync`, given the fresh sentence id and the clock's
     * reading: with an item loaded and a row active, store that row and say so.
     */
    method SaveCurrentSentence(id: string, now: int)
      modifies this`effects
      ensures state.currentItem.None? || !(0 <= activeIndex < |rows|) ==> effects == old(effects)
      ensures state.currentItem.Some? && 0 <= activeIndex < |rows| ==>
                effects == old(effects)
                  + [SentenceAdded(SentenceOf(rows[activeIndex], primaryOffsetMs as int,
                                              state.currentItem.value.id, id, now)),
                     ToastShown("Saved", "Sentence saved.")]
    {
      if state.currentItem.None? {
        return;
      }
      if activeIndex < 0 || activeIndex >= |rows| {
        return;
      }
      var row := rows[activeIndex];
      var sentence := SentenceOf(row, primaryOffsetMs as int, state.currentItem.value.id, id, now);
      effects := effects + [SentenceAdded(sentence)];
      effects := effects + [ToastShown("Saved", "Sentence saved.")];
    }

    /** `OnPlaybackStateChanged`: a new position moves the active row. */
    method OnPlaybackStateChanged(property: StateProperty)
      modifies this`activeIndex
      ensures property == PositionProperty ==>
                activeIndex == ActiveAfter(rows, state.position, primaryOffsetMs as int, old(activeIndex))
      ensures property != PositionProperty ==> activeIndex == old(activeIndex)
    {
      if property == PositionProperty {
        UpdateActiveIndex();
      }
    }

    /** `AdjustPrimaryOffset`: the `int` offset grows by `deltaMs`, wrapping, and the active row follows. */
    method AdjustPrimaryOffset(deltaMs: Int32)
      modifies this`primaryOffsetMs, this`activeIndex
      ensures primaryOffsetMs as int == Wrap32(old(primaryOffsetMs) as int + deltaMs as int)
      ensures activeIndex == ActiveAfter(rows, state.position, primaryOffsetMs as int, old(activeIndex))
    {
      primaryOffsetMs := Wrap32(primaryOffsetMs as int + deltaMs as int) as Int32;
      UpdateActiveIndex();
    }

    /** `AdjustSecondaryOffset`: only the offset changes; matching does not use it. */
    method AdjustSecondaryOffset(deltaMs: Int32)
      modifies this`secondaryOffsetMs
      ensures secondaryOffsetMs as int == Wrap32(old(secondaryOffsetMs) as int + deltaMs as int)
    {
      secondaryOffsetMs := Wrap32(secondaryOffsetMs as int + deltaMs as int) as Int32;
    }
  }

  /** A scan that stops at the first covering row finds what `CoveringRow` finds. */
  lemma CoveringFirst(rows: seq<Row>, t: int, offset: int, i: nat)
    requires i < |rows| && Covers(rows[i], t, offset)
    requires forall j :: 0 <= j < i ==> !Covers(rows[j], t, offset)
    ensures CoveringRow(rows, t, offset) == Some(i)
  {
  }

  /** A scan that meets no covering row agrees with `CoveringRow`. */
  lemma CoveringNone(rows: seq<Row>, t: int, offset: int)
    requires forall j :: 0 <= j < |rows| ==> !Covers(rows[j], t, offset)
    ensures CoveringRow(rows, t, offset) == None
  {
  }
}
