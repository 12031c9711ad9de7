/** Choosing YouTube's new splash animation. A setting read that throws is
    `None`. */
module SplashAnimation {
  import opened Common

  function EnableNewSplashAnimationBoolean(setting: Option<bool>, original: bool): (r: bool)
    ensures setting.Some? ==> r == setting.value
    ensures setting.None? ==> r == original
  {
    match setting
    case Some(enabled) => enabled
    case None => original
  }

  /** The animation kind is only rewritten when the app asks for kind 0. */
  function EnableNewSplashAnimationInt(setting: Option<bool>, original: int): (r: int)
    ensures original != 0 ==> r == original
    ensures original == 0 && setting == Some(true) ==> r == 3
    ensures original == 0 && setting != Some(true) ==> r == 0
  {
    if original == 0 && setting.Some? then (if setting.value then 3 else 0) else original
  }

  /** The two hooks agree: for kind 0 the integer hook picks the new
      animation exactly when the boolean hook, defaulting to off, says so. */
  lemma HooksAgree(setting: Option<bool>)
    ensures EnableNewSplashAnimationInt(setting, 0) == 3 <==> EnableNewSplashAnimationBoolean(setting, false)
    ensures EnableNewSplashAnimationInt(setting, 0) in {0, 3}
  {
  }

  /** Applying the integer hook twice is applying it once. */
  lemma IntHookIdempotent(setting: Option<bool>, original: int)
    ensures EnableNewSplashAnimationInt(setting, EnableNewSplashAnimationInt(setting, original))
            == EnableNewSplashAnimationInt(setting, original)
  {
  }
}
