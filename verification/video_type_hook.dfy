/** The hook that feeds YouTube Music's own video-type enum into the
    video-type tracker by name. */
module VideoTypeHook {
  import opened Common
  import EnumTracker
  import VideoType

  /** `musicVideoType` is the name of the app's enum value, or `None` for null. */
  function SetVideoType(t: EnumTracker.Tracker<VideoType.VideoType>, musicVideoType: Option<string>): (r: EnumTracker.Tracker<VideoType.VideoType>)
    ensures musicVideoType.None? ==> r == t
    ensures musicVideoType.Some? ==> r == VideoType.SetFromString(t, musicVideoType.value)
  {
    match musicVideoType
    case None => t
    case Some(n) => VideoType.SetFromString(t, n)
  }

  /** An app enum named like a tracked type makes that type current; any
      other name, or null, leaves the current type alone. */
  lemma HookFollowsMatchingNames(t: EnumTracker.Tracker<VideoType.VideoType>, musicVideoType: Option<string>)
    ensures forall v :: musicVideoType == Some(VideoType.Name(v)) ==> SetVideoType(t, musicVideoType).current == v
    ensures (forall v :: musicVideoType != Some(VideoType.Name(v))) ==> SetVideoType(t, musicVideoType) == t
  {
  }

  /** Calling the hook twice with the same enum fires at most one change event. */
  lemma RepeatedHookFiresAtMostOnce(t: EnumTracker.Tracker<VideoType.VideoType>, musicVideoType: Option<string>)
    ensures |SetVideoType(SetVideoType(t, musicVideoType), musicVideoType).events| <= |t.events| + 1
    ensures SetVideoType(SetVideoType(t, musicVideoType), musicVideoType) == SetVideoType(t, musicVideoType)
  {
    if musicVideoType.Some? {
      VideoType.SetFromStringIdempotent(t, musicVideoType.value);
    }
  }
}
