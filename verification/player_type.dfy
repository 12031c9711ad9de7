/** The state of the YouTube Music player (watch-while layout). */
module PlayerType {
  import opened Common
  import EnumTracker

  datatype PlayerType =
    | Dismissed | Minimized | MaximizedNowPlaying | MaximizedPlayerAdditionalView
    | Fullscreen | SlidingVertically | QueueExpanding | SlidingHorizontally

  /** `values()`, in declaration order. */
  const Values: seq<PlayerType> :=
    [Dismissed, Minimized, MaximizedNowPlaying, MaximizedPlayerAdditionalView,
     Fullscreen, SlidingVertically, QueueExpanding, SlidingHorizontally]

  function Name(p: PlayerType): string
  {
    match p
    case Dismissed => "DISMISSED"
    case Minimized => "MINIMIZED"
    case MaximizedNowPlaying => "MAXIMIZED_NOW_PLAYING"
    case MaximizedPlayerAdditionalView => "MAXIMIZED_PLAYER_ADDITIONAL_VIEW"
    case Fullscreen => "FULLSCREEN"
    case SlidingVertically => "SLIDING_VERTICALLY"
    case QueueExpanding => "QUEUE_EXPANDING"
    case SlidingHorizontally => "SLIDING_HORIZONTALLY"
  }

  /** No two values share a name. */
  lemma NamesAreDistinct()
    ensures EnumTracker.NamesDistinct(Values, Name)
  {
  }

  /** Every type is listed and no two share a name, so each type is found by
      its own name. */
  lemma NamesIdentifyTypes(p: PlayerType)
    ensures p in Values
    ensures EnumTracker.NamesDistinct(Values, Name)
    ensures EnumTracker.Lookup(Values, Name, Name(p)) == Some(p)
  {
    NamesAreDistinct();
    match p
    case Dismissed => assert Values[0] == p;
    case Minimized => assert Values[1] == p;
    case MaximizedNowPlaying => assert Values[2] == p;
    case MaximizedPlayerAdditionalView => assert Values[3] == p;
    case Fullscreen => assert Values[4] == p;
    case SlidingVertically => assert Values[5] == p;
    case QueueExpanding => assert Values[6] == p;
    case SlidingHorizontally => assert Values[7] == p;
    EnumTracker.LookupRoundTrip(Values, Name, p);
  }

  /** Looking a name up finds the type of that name, and nothing when no
      type has it. */
  lemma FromName(n: string)
    ensures forall p :: Name(p) == n ==> EnumTracker.Lookup(Values, Name, n) == Some(p)
    ensures (forall p :: Name(p) != n) ==> EnumTracker.Lookup(Values, Name, n) == None
  {
    forall p | Name(p) == n
      ensures EnumTracker.Lookup(Values, Name, n) == Some(p)
    {
      NamesIdentifyTypes(p);
    }
  }

  /** Tracking starts with the player minimized and no events. */
  const Initial: EnumTracker.Tracker<PlayerType> := EnumTracker.Tracker(Minimized, [])

  /** Sets the current type from its name; unknown names are ignored. */
  function SetFromString(t: EnumTracker.Tracker<PlayerType>, enumName: string): (r: EnumTracker.Tracker<PlayerType>)
    ensures (forall p :: Name(p) != enumName) ==> r == t
    ensures forall p :: Name(p) == enumName ==> r.current == p
    ensures forall p :: Name(p) == enumName && p != t.current ==> r.events == t.events + [p]
    ensures (forall p :: Name(p) == enumName ==> p == t.current) ==> r.events == t.events
  {
    FromName(enumName);
    EnumTracker.Set(t, EnumTracker.Lookup(Values, Name, enumName))
  }

  /** The player is out of the way: dismissed or minimized. */
  predicate IsDismissedOrMinimized(p: PlayerType)
  {
    p == Dismissed || p == Minimized
  }

  /** Exactly the first two declared types are out of the way. */
  lemma FirstTwoAreDismissedOrMinimized()
    ensures forall k :: 0 <= k < |Values| ==> (IsDismissedOrMinimized(Values[k]) <==> k < 2)
  {
  }

  /** Repeating a call changes nothing more. */
  lemma SetFromStringIdempotent(t: EnumTracker.Tracker<PlayerType>, enumName: string)
    ensures SetFromString(SetFromString(t, enumName), enumName) == SetFromString(t, enumName)
  {
    EnumTracker.SetIdempotent(t, EnumTracker.Lookup(Values, Name, enumName));
  }
}
