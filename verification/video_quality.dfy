/**
 * Default video quality: the per-video custom quality override, the choice
 * of a quality from the list the player offers, and saving a manual choice
 * as the default for the current network type.  The quality hook the patch
 * drives (`overrideQuality`) is the `applied` output; the network type and
 * the settings are part of the input state.
 */
module VideoQuality {
  import opened Common

  /** The network type reported by the system. */
  datatype NetworkType = NoNetwork | Mobile | OtherNetwork

  /** The quality settings: whether manual choices are saved, and the saved
      defaults (-2 means automatic). */
  datatype Settings = Settings(saveVideoQuality: bool, mobileQuality: int, wifiQuality: int)

  datatype QualityState = QualityState(
    useCustomQuality: bool,
    customQuality: int,
    videoQualities: Option<seq<int>>,
    settings: Settings)

  /** A state and the quality handed to the quality hook, if any. */
  datatype Outcome = Outcome(state: QualityState, applied: Option<int>)

  const Automatic := -2

  /** A new video: the custom override is dropped. */
  function Initialize(s: QualityState): (r: QualityState)
    ensures !r.useCustomQuality && r.customQuality == 0
    ensures r.videoQualities == s.videoQualities && r.settings == s.settings
  {
    s.(useCustomQuality := false, customQuality := 0)
  }

  /** Forces `quality` for the rest of the video and applies it. */
  function OverrideCustomQuality(s: QualityState, quality: int): (r: Outcome)
    ensures r.state.useCustomQuality && r.state.customQuality == quality
    ensures r.state.videoQualities == s.videoQualities && r.state.settings == s.settings
    ensures r.applied == Some(quality)
  {
    Outcome(s.(customQuality := quality, useCustomQuality := true), Some(quality))
  }

  /** A manual quality choice: applied and forced at once, and saved as the
      default of the current network type when saving is enabled and there
      is a network. */
  function ChangeDefaultQuality(s: QualityState, quality: int, network: NetworkType): (r: Outcome)
    ensures r.applied == Some(quality)
    ensures r.state.useCustomQuality && r.state.customQuality == quality
    ensures r.state.videoQualities == s.videoQualities
    ensures !s.settings.saveVideoQuality || network == NoNetwork ==> r.state.settings == s.settings
    ensures s.settings.saveVideoQuality && network == Mobile ==>
      r.state.settings == s.settings.(mobileQuality := quality)
    ensures s.settings.saveVideoQuality && network == OtherNetwork ==>
      r.state.settings == s.settings.(wifiQuality := quality)
  {
    var overridden := OverrideCustomQuality(s, quality);
    if !s.settings.saveVideoQuality then overridden
    else
      var t := overridden.state;
      match network
      case NoNetwork => overridden
      case Mobile => Outcome(t.(settings := t.settings.(mobileQuality := quality)), Some(quality))
      case OtherNetwork => Outcome(t.(settings := t.settings.(wifiQuality := quality)), Some(quality))
  }

  /** The quality the player list offers for a wish: the largest offered
      quality not above it, unless the first entry (automatic) is larger. */
  predicate IsQualityChoice(qualities: seq<int>, preferred: int, q: int)
    requires |qualities| > 0
  {
    && q in qualities
    && q >= qualities[0]
    && (q == qualities[0] || q <= preferred)
    && (forall k :: 0 <= k < |qualities| && qualities[k] <= preferred ==> qualities[k] <= q)
  }

  /** The choice is unique: at most one offered quality fits it. */
  lemma QualityChoiceIsUnique(qualities: seq<int>, preferred: int, a: int, b: int)
    requires |qualities| > 0
    requires IsQualityChoice(qualities, preferred, a) && IsQualityChoice(qualities, preferred, b)
    ensures a == b
  {
    var i :| 0 <= i < |qualities| && qualities[i] == a;
    var j :| 0 <= j < |qualities| && qualities[j] == b;
  }

  /** Picks the quality to use for `preferred`.  Without a list the wish
      passes through; an empty list makes the read of its first entry throw. */
  method SetVideoQuality(videoQualities: Option<seq<int>>, preferred: int) returns (r: Result<int>)
    ensures videoQualities.None? ==> r == Ok(preferred)
    ensures videoQualities.Some? && |videoQualities.value| == 0 ==> r == Err(IndexOutOfBounds)
    ensures videoQualities.Some? && |videoQualities.value| > 0 ==>
      r.Ok? && IsQualityChoice(videoQualities.value, preferred, r.value)
  {
    if videoQualities.None? {
      return Ok(preferred);
    }
    var qualities := videoQualities.value;
    if |qualities| == 0 {
      return Err(IndexOutOfBounds);
    }
    var qualityToUse := qualities[0];
    var k := 0;
    while k < |qualities|
      invariant 0 <= k <= |qualities|
      invariant qualityToUse in qualities && qualityToUse >= qualities[0]
      invariant qualityToUse == qualities[0] || qualityToUse <= preferred
      invariant forall j :: 0 <= j < k && qualities[j] <= preferred ==> qualities[j] <= qualityToUse
    {
      var quality := qualities[k];
      if quality <= preferred && qualityToUse < quality {
        qualityToUse := quality;
      }
      k := k + 1;
    }
    return Ok(qualityToUse);
  }

  /** The saved default of the current network type. */
  function PreferredQuality(settings: Settings, network: NetworkType): int
  {
    if network == Mobile then settings.mobileQuality else settings.wifiQuality
  }

  /** The quality asked for when a video starts: the forced custom quality,
      or else the saved default of the network type. */
  function Wish(s: QualityState, network: NetworkType): int
  {
    if s.useCustomQuality then s.customQuality else PreferredQuality(s.settings, network)
  }

  /** Applies the default quality when a video starts: nothing when the
      default is automatic, else the custom override if one is forced and
      the saved default otherwise, matched against the offered list.  The
      main-thread delay is taken as an immediate call. */
  method OverideDefaultVideoQuality(s: QualityState, network: NetworkType) returns (r: Result<Option<int>>)
    ensures PreferredQuality(s.settings, network) == Automatic ==> r == Ok(None)
    ensures PreferredQuality(s.settings, network) != Automatic ==>
      match s.videoQualities
      case None => r == Ok(Some(Wish(s, network)))
      case Some(qualities) =>
        if |qualities| == 0 then r == Err(IndexOutOfBounds)
        else r.Ok? && r.value.Some? && IsQualityChoice(qualities, Wish(s, network), r.value.value)
  {
    var preferredQuality := if network == Mobile then s.settings.mobileQuality else s.settings.wifiQuality;
    if preferredQuality == Automatic {
      return Ok(None);
    }
    var chosen := SetVideoQuality(s.videoQualities, if s.useCustomQuality then s.customQuality else preferredQuality);
    match chosen
    case Ok(q) => r := Ok(Some(q));
    case Err(e) => r := Err(e);
  }

  /** A pick from the old quality menu, by position in the offered list. */
  function UserChangedQualityIndex(s: QualityState, index: int, network: NetworkType): (r: Result<Outcome>)
    ensures s.videoQualities.None? ==> r == Ok(Outcome(s, None))
    ensures s.videoQualities.Some? && !(0 <= index < |s.videoQualities.value|) ==> r == Err(IndexOutOfBounds)
    ensures s.videoQualities.Some? && 0 <= index < |s.videoQualities.value| ==>
      r == Ok(ChangeDefaultQuality(s, s.videoQualities.value[index], network))
    ensures s.videoQualities.Some? && 0 <= index < |s.videoQualities.value| ==>
      && r.value.applied == Some(s.videoQualities.value[index])
      && r.value.state.customQuality == s.videoQualities.value[index] && r.value.state.useCustomQuality
      && r.value.state.videoQualities == s.videoQualities
      && (!s.settings.saveVideoQuality || network == NoNetwork ==> r.value.state.settings == s.settings)
      && (s.settings.saveVideoQuality && network == Mobile ==>
            r.value.state.settings == s.settings.(mobileQuality := s.videoQualities.value[index]))
      && (s.settings.saveVideoQuality && network == OtherNetwork ==>
            r.value.state.settings == s.settings.(wifiQuality := s.videoQualities.value[index]))
  {
    match s.videoQualities
    case None => Ok(Outcome(s, None))
    case Some(qualities) =>
      if 0 <= index < |qualities| then Ok(ChangeDefaultQuality(s, qualities[index], network))
      else Err(IndexOutOfBounds)
  }

  /** After a manual choice the next video-start wish is that choice, on any
      network, whatever the saved defaults say. */
  lemma ManualChoiceIsTheNextWish(s: QualityState, quality: int, network: NetworkType, later: NetworkType)
    ensures Wish(ChangeDefaultQuality(s, quality, network).state, later) == quality
  {
  }

  /** A pick from the old menu forces that list entry: the next video-start
      wish is the entry on any network, and when the entry is at least the
      automatic one it is exactly the quality the list then yields. */
  lemma OldMenuPickIsTheNextWish(s: QualityState, index: int, network: NetworkType, later: NetworkType)
    requires s.videoQualities.Some? && 0 <= index < |s.videoQualities.value|
    ensures UserChangedQualityIndex(s, index, network).Ok?
    ensures var t := UserChangedQualityIndex(s, index, network).value.state;
            Wish(t, later) == s.videoQualities.value[index] && t.videoQualities == s.videoQualities
    ensures s.videoQualities.value[index] >= s.videoQualities.value[0] ==>
      forall q :: IsQualityChoice(s.videoQualities.value, s.videoQualities.value[index], q) <==> q == s.videoQualities.value[index]
  {
  }

  /** An offered quality at least as high as the automatic entry is chosen
      for itself, and for nothing else. */
  lemma OfferedQualityIsChosenForItself(qualities: seq<int>, quality: int, q: int)
    requires |qualities| > 0
    requires quality in qualities && quality >= qualities[0]
    ensures IsQualityChoice(qualities, quality, q) <==> q == quality
  {
    if IsQualityChoice(qualities, quality, q) {
      QualityChoiceIsUnique(qualities, quality, q, quality);
    }
  }
}
