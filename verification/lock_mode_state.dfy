/** The lock-mode state of the YouTube player. */
module LockModeState {
  import opened Common
  import EnumTracker

  datatype LockModeState = Unknown | Unlocked | Locked | CanUnlock | UnlockExpanded | LockedTemporarySuspension

  /** `values()`, in declaration order. */
  const Values: seq<LockModeState> := [Unknown, Unlocked, Locked, CanUnlock, UnlockExpanded, LockedTemporarySuspension]

  function Name(s: LockModeState): string
  {
    match s
    case Unknown => "LOCK_MODE_STATE_ENUM_UNKNOWN"
    case Unlocked => "LOCK_MODE_STATE_ENUM_UNLOCKED"
    case Locked => "LOCK_MODE_STATE_ENUM_LOCKED"
    case CanUnlock => "LOCK_MODE_STATE_ENUM_CAN_UNLOCK"
    case UnlockExpanded => "LOCK_MODE_STATE_ENUM_UNLOCK_EXPANDED"
    case LockedTemporarySuspension => "LOCK_MODE_STATE_ENUM_LOCKED_TEMPORARY_SUSPENSION"
  }

  /** No two values share a name. */
  lemma NamesAreDistinct()
    ensures EnumTracker.NamesDistinct(Values, Name)
  {
  }

  /** Every state is listed and no two share a name, so each name picks at
      most one state and each state is found by its own name. */
  lemma NamesIdentifyStates(s: LockModeState)
    ensures s in Values
    ensures EnumTracker.NamesDistinct(Values, Name)
    ensures EnumTracker.Lookup(Values, Name, Name(s)) == Some(s)
  {
    NamesAreDistinct();
    match s
    case Unknown => assert Values[0] == s;
    case Unlocked => assert Values[1] == s;
    case Locked => assert Values[2] == s;
    case CanUnlock => assert Values[3] == s;
    case UnlockExpanded => assert Values[4] == s;
    case LockedTemporarySuspension => assert Values[5] == s;
    EnumTracker.LookupRoundTrip(Values, Name, s);
  }

  /** Looking a name up finds the state of that name, and nothing when no
      state has it. */
  lemma FromName(n: string)
    ensures forall s :: Name(s) == n ==> EnumTracker.Lookup(Values, Name, n) == Some(s)
    ensures (forall s :: Name(s) != n) ==> EnumTracker.Lookup(Values, Name, n) == None
  {
    forall s | Name(s) == n
      ensures EnumTracker.Lookup(Values, Name, n) == Some(s)
    {
      NamesIdentifyStates(s);
    }
  }

  /** Tracking starts at the unknown state with no events. */
  const Initial: EnumTracker.Tracker<LockModeState> := EnumTracker.Tracker(Unknown, [])

  /** Sets the current state from its name; unknown names are ignored. */
  function SetFromString(t: EnumTracker.Tracker<LockModeState>, enumName: string): (r: EnumTracker.Tracker<LockModeState>)
    ensures (forall s :: Name(s) != enumName) ==> r == t
    ensures forall s :: Name(s) == enumName ==> r.current == s
    ensures forall s :: Name(s) == enumName && s != t.current ==> r.events == t.events + [s]
    ensures (forall s :: Name(s) == enumName ==> s == t.current) ==> r.events == t.events
  {
    FromName(enumName);
    EnumTracker.Set(t, EnumTracker.Lookup(Values, Name, enumName))
  }

  /** Locked, as far as the user can see: locked or with the unlock control expanded. */
  predicate IsLocked(s: LockModeState)
  {
    s == Locked || s == UnlockExpanded
  }

  /** Exactly two of the six states count as locked. */
  lemma TwoStatesAreLocked()
    ensures forall k :: 0 <= k < |Values| ==> (IsLocked(Values[k]) <==> k == 2 || k == 4)
  {
  }

  /** Repeating a call changes nothing more. */
  lemma SetFromStringIdempotent(t: EnumTracker.Tracker<LockModeState>, enumName: string)
    ensures SetFromString(SetFromString(t, enumName), enumName) == SetFromString(t, enumName)
  {
    EnumTracker.SetIdempotent(t, EnumTracker.Lookup(Values, Name, enumName));
  }
}
