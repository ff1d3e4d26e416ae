// The two scenarios of `PlayerViewModelTests.cs`, stated on the model and proved: load a
// one-cue SRT file as the primary track, move the position into the cue,
// then save the current sentence.

module PlayerExamples {
  import opened Wrappers
  import opened Strings
  import opened Domain
  import opened SubtitleService
  import opened SubtitleExamples
  import opened Player

  /** A ".srt" file is not taken for WebVTT. */
  lemma SrtPathFormat()
    ensures GuessFormat("a.srt") == Srt
  {
    var s := "a.srt"[1..];
    assert s == ".srt";
    ToUpperAt(s, 1);
    UpperVtt();
    assert ToUpper(s)[1] == 'S';
    GuessFormatVtt("a.srt");
  }

  /** The scenario from whatever file text parses to the one cue. */
  method LoadAndSaveText(path: string, text: string, id: string, now: int)
    returns (rows: seq<Row>, active: int, shown: string, effects: seq<Effect>)
    requires Parse(text, GuessFormat(path)) == [Cue(1000, 2000, "Hello")]
    ensures rows == [Row(1000, 2000, "Hello", None)]
    ensures active == 0 && shown == "Hello"
    ensures effects == [SentenceAdded(SavedSentence(id, "m1", 1000, 2000, "Hello", None, now, false)),
                        ToastShown("Saved", "Sentence saved.")]
  {
    var state := new PlaybackState();
    state.currentItem := Some(MediaItem("m1", "a.mp4", Local, "file:///a.mp4", None));
    var vm := new PlayerViewModel(state);
    vm.LoadPrimarySubtitle(Some((path, text)));
    assert vm.rows[0] == RowFor(0, vm.primary[0], []);
    state.position := 1500;
    vm.OnPlaybackStateChanged(PositionProperty);
    assert Covers(vm.rows[0], 1500, 0);
    rows, active, shown := vm.rows, vm.activeIndex, vm.DisplayedPrimaryText();
    var sentence := SentenceOf(rows[0], 0, "m1", id, now);
    assert sentence == SavedSentence(id, "m1", 1000, 2000, "Hello", None, now, false);
    vm.SaveCurrentSentence(id, now);
    effects := vm.effects;
  }

  /**
   * `LoadPrimarySubtitle_BuildsRows_AndPositionUpdatesActiveIndex` and
   * `SaveCurrentSentence_WritesToLearningStore_AndShowsToast`: one row
   * reading `Hello`; at 1500 ms it is active and shown; saving it stores a
   * sentence of item `m1` and shows the `Saved` toast.
   */
  method LoadAndSave(lines: seq<string>, id: string, now: int)
    returns (rows: seq<Row>, active: int, shown: string, effects: seq<Effect>)
    requires lines == ["1", T3, "Hello"]
    ensures rows == [Row(1000, 2000, "Hello", None)]
    ensures active == 0 && shown == "Hello"
    ensures effects == [SentenceAdded(SavedSentence(id, "m1", 1000, 2000, "Hello", None, now, false)),
                        ToastShown("Saved", "Sentence saved.")]
  {
    SrtSingle(lines);
    SrtPathFormat();
    rows, active, shown, effects := LoadAndSaveText("a.srt", Join("\n", lines), id, now);
  }
}
