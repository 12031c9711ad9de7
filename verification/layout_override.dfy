/** Forcing the tablet or the phone layout. A setting read that throws is
    `None`. */
module LayoutOverride {
  import opened Common

  /** The smallest-width, in dp, that YouTube lays out as a phone. */
  const PhoneLayoutWidth := 480

  function EnableTabletLayout(setting: Option<bool>): (r: bool)
    ensures r <==> setting == Some(true)
  {
    match setting
    case Some(enabled) => enabled
    case None => false
  }

  function GetLayoutOverride(setting: Option<bool>, original: int): (r: int)
    ensures setting == Some(true) ==> r == PhoneLayoutWidth
    ensures setting != Some(true) ==> r == original
  {
    match setting
    case Some(phone) => if phone then PhoneLayoutWidth else original
    case None => original
  }

  /** The override is idempotent, and with the phone layout on it forgets the
      original width entirely. */
  lemma LayoutOverrideIdempotent(setting: Option<bool>, original: int, other: int)
    ensures GetLayoutOverride(setting, GetLayoutOverride(setting, original)) == GetLayoutOverride(setting, original)
    ensures setting == Some(true) ==> GetLayoutOverride(setting, original) == GetLayoutOverride(setting, other)
  {
  }
}
