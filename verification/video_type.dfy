/** The music video type of the item playing in YouTube Music. */
module VideoType {
  import opened Common
  import EnumTracker

  datatype VideoType =
    | Unknown | Atv | Omv | Ugc | Shoulder | OfficialSourceMusic
    | PrivatelyOwnedTrack | LiveStream | PodcastEpisode

  /** `values()`, in declaration order. */
  const Values: seq<VideoType> :=
    [Unknown, Atv, Omv, Ugc, Shoulder, OfficialSourceMusic, PrivatelyOwnedTrack, LiveStream, PodcastEpisode]

  function Name(v: VideoType): string
  {
    match v
    case Unknown => "MUSIC_VIDEO_TYPE_UNKNOWN"
    case Atv => "MUSIC_VIDEO_TYPE_ATV"
    case Omv => "MUSIC_VIDEO_TYPE_OMV"
    case Ugc => "MUSIC_VIDEO_TYPE_UGC"
    case Shoulder => "MUSIC_VIDEO_TYPE_SHOULDER"
    case OfficialSourceMusic => "MUSIC_VIDEO_TYPE_OFFICIAL_SOURCE_MUSIC"
    case PrivatelyOwnedTrack => "MUSIC_VIDEO_TYPE_PRIVATELY_OWNED_TRACK"
    case LiveStream => "MUSIC_VIDEO_TYPE_LIVE_STREAM"
    case PodcastEpisode => "MUSIC_VIDEO_TYPE_PODCAST_EPISODE"
  }

  /** No two values share a name. */
  lemma NamesAreDistinct()
    ensures EnumTracker.NamesDistinct(Values, Name)
  {
  }

  /** Every type is listed and no two share a name, so each type is found by
      its own name. */
  lemma NamesIdentifyTypes(v: VideoType)
    ensures v in Values
    ensures EnumTracker.NamesDistinct(Values, Name)
    ensures EnumTracker.Lookup(Values, Name, Name(v)) == Some(v)
  {
    NamesAreDistinct();
    match v
    case Unknown => assert Values[0] == v;
    case Atv => assert Values[1] == v;
    case Omv => assert Values[2] == v;
    case Ugc => assert Values[3] == v;
    case Shoulder => assert Values[4] == v;
    case OfficialSourceMusic => assert Values[5] == v;
    case PrivatelyOwnedTrack => assert Values[6] == v;
    case LiveStream => assert Values[7] == v;
    case PodcastEpisode => assert Values[8] == v;
    EnumTracker.LookupRoundTrip(Values, Name, v);
  }

  /** Looking a name up finds the type of that name, and nothing when no
      type has it. */
  lemma FromName(n: string)
    ensures forall v :: Name(v) == n ==> EnumTracker.Lookup(Values, Name, n) == Some(v)
    ensures (forall v :: Name(v) != n) ==> EnumTracker.Lookup(Values, Name, n) == None
  {
    forall v | Name(v) == n
      ensures EnumTracker.Lookup(Values, Name, n) == Some(v)
    {
      NamesIdentifyTypes(v);
    }
  }

  /** Tracking starts at the unknown type with no events. */
  const Initial: EnumTracker.Tracker<VideoType> := EnumTracker.Tracker(Unknown, [])

  /** Sets the current type from its name; unknown names are ignored. */
  function SetFromString(t: EnumTracker.Tracker<VideoType>, enumName: string): (r: EnumTracker.Tracker<VideoType>)
    ensures (forall v :: Name(v) != enumName) ==> r == t
    ensures forall v :: Name(v) == enumName ==> r.current == v
    ensures forall v :: Name(v) == enumName && v != t.current ==> r.events == t.events + [v]
    ensures (forall v :: Name(v) == enumName ==> v == t.current) ==> r.events == t.events
  {
    FromName(enumName);
    EnumTracker.Set(t, EnumTracker.Lookup(Values, Name, enumName))
  }

  /** An official music video. */
  predicate IsMusicVideo(v: VideoType)
  {
    v == Omv
  }

  /** Exactly one of the nine types is a music video. */
  lemma OneTypeIsMusicVideo()
    ensures forall k :: 0 <= k < |Values| ==> (IsMusicVideo(Values[k]) <==> k == 2)
  {
  }

  /** Repeating a call changes nothing more. */
  lemma SetFromStringIdempotent(t: EnumTracker.Tracker<VideoType>, enumName: string)
    ensures SetFromString(SetFromString(t, enumName), enumName) == SetFromString(t, enumName)
  {
    EnumTracker.SetIdempotent(t, EnumTracker.Lookup(Values, Name, enumName));
  }
}
