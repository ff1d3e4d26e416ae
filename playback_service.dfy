/**
 * The playback state machine: opening an item, play, pause, seek and
 * speed, the throttled saving of progress while playing, and the one-shot
 * seek to the position an item was last left at. The media adapter, the
 * library store, the notifier and the `MediaOpened` event are seen through
 * the calls made to them, logged in order; clock readings are parameters.
 */
module Playback {
  import opened Wrappers
  import opened Domain

  /** `PlaybackInput`; a stream input's factory is represented by an opaque number. */
  datatype PlaybackInput =
    | DirectUri(uri: string)
    | SeekableStream(factory: nat)
    | HttpProxy(url: string)

  /** `AutoSaveMinInterval`, 10 s, and `AutoSaveMinDelta`, 1 s, in milliseconds. */
  const AutoSaveMinInterval: int := 10_000
  const AutoSaveMinDelta: int := 1_000

  /** `DateTimeOffset.MinValue`, as milliseconds since 1970-01-01. */
  const MinInstant: int := -62_135_596_800_000

  /** A call the service makes, or an event it raises. */
  datatype Event =
    | AdapterOpen(input: PlaybackInput)
    | AdapterPlay
    | AdapterPause
    | AdapterSeek(position: int)
    | AdapterSetSpeed(speed: real)
    | MediaOpened(item: MediaItem)
    | MediaUpserted(item: MediaItem, playedAt: int)
    | ProgressSaved(mediaItemId: string, position: int, at: int)
    | LastPositionRequested(mediaItemId: string)
    | TopAlert(message: string)

  // ------------------------------------------------------------- autosave

  /** Where the autosave window starts: the time and position of the last save (or of play). */
  datatype Window = Window(at: int, position: int)

  /** A position update while playing saves when 10 s have passed and the position moved 1 s on. */
  predicate AutoSaveDue(w: Window, now: int, pos: int) {
    now - w.at >= AutoSaveMinInterval && pos - w.position >= AutoSaveMinDelta
  }

  /** The saves, as (time, position), made while playing over a run of position updates. */
  function AutoSaves(w: Window, updates: seq<(int, int)>): (saves: seq<(int, int)>)
    ensures |saves| <= |updates|
    decreases |updates|
  {
    if updates == [] then []
    else
      var (now, pos) := updates[0];
      if AutoSaveDue(w, now, pos) then [(now, pos)] + AutoSaves(Window(now, pos), updates[1..])
      else AutoSaves(w, updates[1..])
  }

  /**
   * The throttle's promise: the first save comes 10 s and 1 s of position
   * after the window's start, every later one 10 s and 1 s after the one
   * before, and each save is one of the updates.
   */
  lemma {:induction false} AutoSavesSpaced(w: Window, updates: seq<(int, int)>)
    ensures var s := AutoSaves(w, updates);
            (|s| > 0 ==> AutoSaveDue(w, s[0].0, s[0].1))
            && (forall i :: 0 <= i < |s| - 1 ==> AutoSaveDue(Window(s[i].0, s[i].1), s[i + 1].0, s[i + 1].1))
            && (forall i :: 0 <= i < |s| ==> s[i] in updates)
    decreases |updates|
  {
    if updates != [] {
      var (now, pos) := updates[0];
      var tail := updates[1..];
      if AutoSaveDue(w, now, pos) {
        AutoSavesSpaced(Window(now, pos), tail);
        var rest := AutoSaves(Window(now, pos), tail);
        var s := [(now, pos)] + rest;
        forall i | 0 <= i < |s| - 1
          ensures AutoSaveDue(Window(s[i].0, s[i].1), s[i + 1].0, s[i + 1].1)
        {
          if i > 0 {
            assert s[i] == rest[i - 1] && s[i + 1] == rest[i];
          }
        }
        forall i | 0 <= i < |s|
          ensures s[i] in updates
        {
          if i > 0 {
            assert s[i] == rest[i - 1];
            assert rest[i - 1] in tail;
          }
        }
      } else {
        AutoSavesSpaced(w, tail);
        var s := AutoSaves(w, tail);
        forall i | 0 <= i < |s|
          ensures s[i] in updates
        {
          assert s[i] in tail;
        }
      }
    }
  }

  /** Over an interval shorter than 10 s no save happens at all. */
  lemma {:induction false} AutoSavesQuiet(w: Window, updates: seq<(int, int)>)
    requires forall i :: 0 <= i < |updates| ==> updates[i].0 - w.at < AutoSaveMinInterval
    ensures AutoSaves(w, updates) == []
    decreases |updates|
  {
    if updates != [] {
      AutoSavesQuiet(w, updates[1..]);
    }
  }

  /** `WhilePlaying_PositionUpdates_AutoSavesThrottled`: five updates, two saves. */
  lemma ThrottledRun(t0: int)
    ensures AutoSaves(Window(t0, 0),
                      [(t0, 1000), (t0, 2000), (t0 + 10_000, 3000), (t0 + 10_000, 5000), (t0 + 20_000, 6000)])
         == [(t0 + 10_000, 3000), (t0 + 20_000, 6000)]
  {
    var w0, w1, w2 := Window(t0, 0), Window(t0 + 10_000, 3000), Window(t0 + 20_000, 6000);
    var u := [(t0, 1000), (t0, 2000), (t0 + 10_000, 3000), (t0 + 10_000, 5000), (t0 + 20_000, 6000)];
    assert AutoSaves(w2, u[5..]) == [];
    assert AutoSaves(w1, u[4..]) == [(t0 + 20_000, 6000)];
    assert AutoSaves(w1, u[3..]) == [(t0 + 20_000, 6000)];
    assert AutoSaves(w0, u[2..]) == [(t0 + 10_000, 3000), (t0 + 20_000, 6000)];
    assert AutoSaves(w0, u[1..]) == AutoSaves(w0, u[2..]);
  }

  // ------------------------------------------------------------- resume

  /** `TryApplyResumeSeek`'s guard: not yet applied, an item, a pending position, a known duration. */
  predicate ResumeDue(applied: bool, item: Option<MediaItem>, pending: Option<int>, duration: Option<int>) {
    !applied && item.Some? && pending.Some? && duration.Some?
  }

  // ------------------------------------------------------------- the service

  class PlaybackService {
    const state: PlaybackState
    var lastAutoSavedAt: int
    var lastAutoSavedPosition: int
    var pendingResume: Option<int>
    var resumeApplied: bool
    /** The calls made to the adapter, the store and the notifier, and the events raised. */
    var events: seq<Event>
    /** Resume seeks since the last `Open`. */
    ghost var resumeSeeks: nat

    /**
     * What every operation keeps: the speed is positive, a pending resume
     * position is positive, playing and a resume seek need a loaded item,
     * and an opened item is resumed at most once.
     */
    ghost predicate Valid()
      reads this, state
    {
      && state.speed > 0.0
      && (pendingResume.Some? ==> pendingResume.value > 0)
      && (state.isPlaying ==> state.currentItem.Some?)
      && (resumeApplied ==> state.currentItem.Some?)
      && resumeSeeks <= 1
      && (resumeApplied <==> resumeSeeks == 1)
    }

    function AutoSaveWindow(): Window
      reads this
    {
      Window(lastAutoSavedAt, lastAutoSavedPosition)
    }

    constructor()
      ensures Valid() && fresh(state)
      ensures state.currentItem == None && state.position == 0 && state.duration == None
      ensures !state.isPlaying && state.speed == 1.0 && state.maskMode == Unmasked && state.errorMessage == None
      ensures lastAutoSavedAt == MinInstant && lastAutoSavedPosition == 0
      ensures pendingResume == None && !resumeApplied && events == []
    {
      state := new PlaybackState();
      lastAutoSavedAt := MinInstant;
      lastAutoSavedPosition := 0;
      pendingResume := None;
      resumeApplied := false;
      events := [];
      resumeSeeks := 0;
    }

    /** The `PositionChanged` handler, at clock reading `now`. */
    method OnPositionChanged(pos: int, now: int)
      requires Valid()
      modifies state`position, this`lastAutoSavedAt, this`lastAutoSavedPosition, this`events
      ensures Valid() && state.position == pos
      ensures var saves := state.currentItem.Some? && state.isPlaying && AutoSaveDue(old(AutoSaveWindow()), now, pos);
              && (saves ==> AutoSaveWindow() == Window(now, pos)
                            && events == old(events) + [ProgressSaved(state.currentItem.value.id, pos, now)])
              && (!saves ==> AutoSaveWindow() == old(AutoSaveWindow()) && events == old(events))
    {
      state.position := pos;
      if state.currentItem.None? {
        return;
      }
      if !state.isPlaying {
        return;
      }
      if now - lastAutoSavedAt < AutoSaveMinInterval {
        return;
      }
      if pos - lastAutoSavedPosition < AutoSaveMinDelta {
        return;
      }
      lastAutoSavedAt := now;
      lastAutoSavedPosition := pos;
      events := events + [ProgressSaved(state.currentItem.value.id, pos, now)];
    }

    /** `TryApplyResumeSeek`: seek once to the pending position when the guard holds. */
    method TryApplyResumeSeek()
      requires Valid()
      modifies state`position, this`resumeApplied, this`events, this`resumeSeeks
      ensures Valid()
      ensures ResumeDue(old(resumeApplied), state.currentItem, pendingResume, state.duration) ==>
                state.position == pendingResume.value && resumeApplied
                && events == old(events) + [AdapterSeek(pendingResume.value)]
      ensures !ResumeDue(old(resumeApplied), state.currentItem, pendingResume, state.duration) ==>
                state.position == old(state.position) && resumeApplied == old(resumeApplied)
                && events == old(events)
    ensures resumeSeeks == old(resumeSeeks) +
              if ResumeDue(old(resumeApplied), state.currentItem, pendingResume, state.duration) then 1 else 0
    {
      if resumeApplied {
        return;
      }
      if state.currentItem.None? {
        return;
      }
      if pendingResume.None? {
        return;
      }
      if state.duration.None? {
        return;
      }
      var pos := pendingResume.value;
      events := events + [AdapterSeek(pos)];
      state.position := pos;
      resumeApplied := true;
      resumeSeeks := resumeSeeks + 1;
    }

    /** The `DurationChanged` handler: record the duration, then try the resume seek. */
    method OnDurationChanged(duration: Option<int>)
      requires Valid()
      modifies state`duration, state`position, this`resumeApplied, this`events, this`resumeSeeks
      ensures Valid() && state.duration == duration
      ensures ResumeDue(old(resumeApplied), state.currentItem, pendingResume, duration) ==>
                state.position == pendingResume.value && resumeApplied
                && events == old(events) + [AdapterSeek(pendingResume.value)]
      ensures !ResumeDue(old(resumeApplied), state.currentItem, pendingResume, duration) ==>
                state.position == old(state.position) && resumeApplied == old(resumeApplied)
                && events == old(events)
    {
      state.duration := duration;
      TryApplyResumeSeek();
    }

    /** The `ErrorRaised` handler: show the error in the state and as a top alert. */
    method OnErrorRaised(error: string)
      requires Valid()
      modifies state`errorMessage, this`events
      ensures Valid()
      ensures state.errorMessage == Some(error) && events == old(events) + [TopAlert(error)]
    {
      state.errorMessage := Some(error);
      events := events + [TopAlert(error)];
    }

    /**
     * `Play`: without an item, only the error "No media loaded."; otherwise
     * clear the error, try the resume seek, restart the autosave window at
     * (now, position) and play.
     */
    method Play(now: int)
      requires Valid()
      modifies state`errorMessage, state`position, state`isPlaying,
               this`resumeApplied, this`events, this`resumeSeeks, this`lastAutoSavedAt, this`lastAutoSavedPosition
      ensures Valid()
      ensures old(state.currentItem).None? ==>
                state.errorMessage == Some("No media loaded.") && state.isPlaying == old(state.isPlaying)
                && state.position == old(state.position) && events == old(events)
                && AutoSaveWindow() == old(AutoSaveWindow()) && resumeApplied == old(resumeApplied)
                && resumeSeeks == old(resumeSeeks)
      ensures old(state.currentItem).Some? ==>
                var resumes := ResumeDue(old(resumeApplied), state.currentItem, pendingResume, state.duration);
                && state.errorMessage == None && state.isPlaying
                && resumeApplied == (old(resumeApplied) || resumes)
                && resumeSeeks == old(resumeSeeks) + (if resumes then 1 else 0)
                && state.position == (if resumes then pendingResume.value else old(state.position))
                && events == old(events) + (if resumes then [AdapterSeek(pendingResume.value)] else []) + [AdapterPlay]
                && AutoSaveWindow() == Window(now, state.position)
    {
      if state.currentItem.None? {
        state.errorMessage := Some("No media loaded.");
        return;
      }
      state.errorMessage := None;
      TryApplyResumeSeek();
      lastAutoSavedAt := now;
      lastAutoSavedPosition := state.position;
      events := events + [AdapterPlay];
      state.isPlaying := true;
    }

    /** `Pause`: stop, and save the progress exactly when an item is loaded. */
    method Pause(now: int)
      requires Valid()
      modifies state`isPlaying, this`events
      ensures Valid() && !state.isPlaying
      ensures state.currentItem.None? ==> events == old(events) + [AdapterPause]
      ensures state.currentItem.Some? ==>
                events == old(events) + [AdapterPause, ProgressSaved(state.currentItem.value.id, state.position, now)]
    {
      events := events + [AdapterPause];
      state.isPlaying := false;
      if state.currentItem.Some? {
        events := events + [ProgressSaved(state.currentItem.value.id, state.position, now)];
      }
    }

    method Seek(position: int)
      requires Valid()
      modifies state`position, this`events
      ensures Valid()
      ensures state.position == position && events == old(events) + [AdapterSeek(position)]
    {
      events := events + [AdapterSeek(position)];
      state.position := position;
    }

    /** `SetSpeed`: a speed that is not positive is refused with "Invalid speed.". */
    method SetSpeed(speed: real)
      requires Valid()
      modifies state`errorMessage, state`speed, this`events
      ensures Valid()
      ensures speed <= 0.0 ==>
                state.errorMessage == Some("Invalid speed.") && state.speed == old(state.speed) && events == old(events)
      ensures speed > 0.0 ==>
                state.speed == speed && state.errorMessage == old(state.errorMessage)
                && events == old(events) + [AdapterSetSpeed(speed)]
    {
      if speed <= 0.0 {
        state.errorMessage := Some("Invalid speed.");
        return;
      }
      events := events + [AdapterSetSpeed(speed)];
      state.speed := speed;
    }

    /**
     * `Open`: a fresh state for `item`, a new autosave window and no pending
     * resume; the adapter opens the input, `MediaOpened` is raised, the item
     * is recorded as played now, and its last position is asked for.
     */
    method Open(item: MediaItem, input: PlaybackInput, now: int)
      requires Valid()
      modifies state`currentItem, state`position, state`duration, state`errorMessage, state`isPlaying, state`speed,
               this`lastAutoSavedAt, this`lastAutoSavedPosition, this`pendingResume, this`resumeApplied,
               this`events, this`resumeSeeks
      ensures Valid()
      ensures state.currentItem == Some(item) && state.position == 0 && state.duration == item.duration
      ensures state.errorMessage == None && !state.isPlaying && state.speed == 1.0
      ensures AutoSaveWindow() == Window(now, 0) && pendingResume == None && !resumeApplied
      ensures events == old(events) + [AdapterOpen(input), MediaOpened(item), MediaUpserted(item, now),
                                       LastPositionRequested(item.id)]
    {
      state.currentItem := Some(item);
      state.position := 0;
      state.duration := item.duration;
      state.errorMessage := None;
      state.isPlaying := false;
      state.speed := 1.0;
      lastAutoSavedAt := now;
      lastAutoSavedPosition := 0;
      pendingResume := None;
      resumeApplied := false;
      resumeSeeks := 0;
      events := events + [AdapterOpen(input), MediaOpened(item), MediaUpserted(item, now)];
      events := events + [LastPositionRequested(item.id)];
    }

    /** The end of `LoadResumePositionAsync`: only a stored position above zero becomes pending. */
    method ResumePositionLoaded(stored: Option<int>)
      requires Valid()
      modifies this`pendingResume
      ensures Valid()
      ensures stored.Some? && stored.value > 0 ==> pendingResume == stored
      ensures !(stored.Some? && stored.value > 0) ==> pendingResume == old(pendingResume)
    {
      if stored.None? || stored.value <= 0 {
        return;
      }
      pendingResume := stored;
    }
  }
}
