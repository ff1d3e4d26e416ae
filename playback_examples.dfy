// The scenarios of `PlaybackServiceTests.cs`, stated on the model and proved, and one
// showing that a stored position is resumed exactly once.

module PlaybackExamples {
  import opened Wrappers
  import opened Domain
  import opened Playback

  function TestItem(): MediaItem {
    MediaItem("m1", "test.mp4", Local, "file:///test.mp4", None)
  }

  /** `Play_NoMediaLoaded_SetsError`. */
  method PlayWithoutMedia(now: int) returns (error: Option<string>, playing: bool, events: seq<Event>)
    ensures error == Some("No media loaded.") && !playing && events == []
  {
    var svc := new PlaybackService();
    svc.Play(now);
    error, playing, events := svc.state.errorMessage, svc.state.isPlaying, svc.events;
  }

  /** `Open_ThenPlay_CallsAdapterAndUpdatesState`. */
  method OpenThenPlay(now: int) returns (item: Option<MediaItem>, playing: bool, events: seq<Event>)
    ensures item == Some(TestItem()) && playing
    ensures events == [AdapterOpen(DirectUri("file:///test.mp4")), MediaOpened(TestItem()),
                       MediaUpserted(TestItem(), now), LastPositionRequested("m1"), AdapterPlay]
  {
    var svc := new PlaybackService();
    svc.Open(TestItem(), DirectUri("file:///test.mp4"), now);
    svc.Play(now);
    item, playing, events := svc.state.currentItem, svc.state.isPlaying, svc.events;
  }

  /** `Pause_WithLoadedMedia_SavesProgress`: the last call saves 12 s for `m1` at the clock's time. */
  method PauseSaves(now: int) returns (playing: bool, events: seq<Event>)
    ensures !playing && |events| > 0 && events[|events| - 1] == ProgressSaved("m1", 12_000, now)
  {
    var svc := new PlaybackService();
    svc.Open(TestItem(), DirectUri("file:///test.mp4"), now);
    svc.Seek(12_000);
    svc.Play(now);
    svc.Pause(now);
    playing, events := svc.state.isPlaying, svc.events;
  }

  /** `AdapterError_RaisesTopAlertAndSetsStateError`. */
  method AdapterError() returns (error: Option<string>, events: seq<Event>)
    ensures error == Some("boom") && events == [TopAlert("boom")]
  {
    var svc := new PlaybackService();
    svc.OnErrorRaised("boom");
    error, events := svc.state.errorMessage, svc.events;
  }

  /** `WhilePlaying_PositionUpdates_AutoSavesThrottled`: saves at 3 s and at 6 s only. */
  method ThrottledSaves(t0: int) returns (saves: seq<Event>)
    ensures saves == [ProgressSaved("m1", 3000, t0 + 10_000), ProgressSaved("m1", 6000, t0 + 20_000)]
  {
    var svc := new PlaybackService();
    svc.Open(TestItem(), DirectUri("file:///test.mp4"), t0);
    svc.Play(t0);
    var before := svc.events;
    svc.OnPositionChanged(1000, t0);
    svc.OnPositionChanged(2000, t0);
    assert svc.events == before;
    svc.OnPositionChanged(3000, t0 + 10_000);
    svc.OnPositionChanged(5000, t0 + 10_000);
    svc.OnPositionChanged(6000, t0 + 20_000);
    saves := svc.events[|before|..];
  }

  /**
   * A stored position of 5 s becomes pending; the first known duration
   * seeks there; neither a second duration nor `Play` seeks again.
   */
  method ResumeOnce(now: int) returns (position: int, seeks: seq<Event>)
    ensures position == 5000
    ensures seeks == [AdapterSeek(5000), AdapterPlay]
  {
    var svc := new PlaybackService();
    svc.Open(TestItem(), DirectUri("file:///test.mp4"), now);
    svc.ResumePositionLoaded(Some(5000));
    var before := svc.events;
    svc.OnDurationChanged(Some(60_000));
    svc.OnDurationChanged(Some(60_000));
    svc.Play(now);
    position, seeks := svc.state.position, svc.events[|before|..];
  }
}
