/**
 * The records the player, the playback service and the stores share, and
 * the observable `PlaybackState`. Times (`TimeSpan`, `DateTimeOffset`) are
 * whole milliseconds.
 */
module Domain {
  import opened Wrappers

  datatype SourceKind = Local | Smb

  /** `MediaItem`; `duration` is the nullable `TimeSpan?`. */
  datatype MediaItem = MediaItem(
    id: string, displayName: string, sourceKind: SourceKind, sourceLocator: string, duration: Option<int>)

  /** `SavedSentence`. */
  datatype SavedSentence = SavedSentence(
    id: string, mediaItemId: string, start: int, end: int,
    primaryText: string, secondaryText: Option<string>, updatedAt: int, deleted: bool)

  /** `VocabularyItem`. */
  datatype VocabularyItem = VocabularyItem(
    id: string, word: string, context: Option<string>, sourceMediaItemId: Option<string>,
    updatedAt: int, deleted: bool)

  /** `MaskMode`; its `None` member is `Unmasked` here. */
  datatype MaskMode = Unmasked | HidePrimary | HideSecondary | Blind

  /** `PlaybackState`: one object, written by the playback service and read by the player. */
  class PlaybackState {
    var currentItem: Option<MediaItem>
    var position: int
    var duration: Option<int>
    var isPlaying: bool
    var speed: real
    var maskMode: MaskMode
    var errorMessage: Option<string>

    /** The field initialisers. */
    constructor()
      ensures currentItem == None && position == 0 && duration == None && !isPlaying
      ensures speed == 1.0 && maskMode == Unmasked && errorMessage == None
    {
      currentItem := None;
      position := 0;
      duration := None;
      isPlaying := false;
      speed := 1.0;
      maskMode := Unmasked;
      errorMessage := None;
    }
  }
}
